/** `CommandParser.parse` (src/agent.py): turns a language-model reply into a
    dictionary. A reply that starts with `{` is handed to a JSON decoder; any
    other reply is read as `key: value` lines. A decoding failure yields the
    fixed record `{"command": "unknown", "action": "none"}`. */
module ReplyParser {
  import opened Optional
  import opened PyText

  /** The parsed reply: a dictionary built from `key: value` lines, or
      whatever the JSON decoder produced. */
  datatype Reply<J> = Fields(fields: map<string, string>) | Json(doc: J)

  /** The record returned when parsing raises. */
  function UnknownReply<J>(): Reply<J>
  {
    Fields(map["command" := "unknown", "action" := "none"])
  }

  /** Key of a line holding a colon: the text before the first colon,
      stripped and lower-cased. */
  function LineKey(line: string): string
    requires ':' in line
  {
    Lower(Strip(line[..IndexOf(line, ':')]))
  }

  /** Value of a line holding a colon: the text after the first colon,
      stripped, then with surrounding double quotes removed. */
  function LineValue(line: string): string
    requires ':' in line
  {
    StripQuotes(Strip(line[IndexOf(line, ':') + 1..]))
  }

  /** The line is a `key: value` line for `key`. */
  predicate Defines(line: string, key: string)
  {
    ':' in line && LineKey(line) == key
  }

  /** The dictionary the fallback loop builds from `lines`, one line at a time. */
  function FoldLines(lines: seq<string>): map<string, string>
  {
    if lines == [] then map[]
    else
      var m := FoldLines(lines[..|lines| - 1]);
      var line := lines[|lines| - 1];
      if ':' in line then m[LineKey(line) := LineValue(line)] else m
  }

  /** A line is split at its first colon only: later colons stay in the value. */
  lemma SplitAtFirstColon(before: string, after: string)
    requires ':' !in before
    ensures LineKey(before + [':'] + after) == Lower(Strip(before))
    ensures LineValue(before + [':'] + after) == StripQuotes(Strip(after))
  {
    var line := before + [':'] + after;
    assert line[|before|] == ':';
    var i := IndexOf(line, ':');
    assert i == |before|;
    assert line[..i] == before && line[i + 1..] == after;
  }

  /** A key is in the result exactly when some line with a colon has it. */
  lemma {:induction false} FoldLinesKeys(lines: seq<string>, key: string)
    ensures key in FoldLines(lines) <==> exists j :: 0 <= j < |lines| && Defines(lines[j], key)
  {
    if lines != [] {
      var init := lines[..|lines| - 1];
      FoldLinesKeys(init, key);
      if key in FoldLines(init) {
        var j :| 0 <= j < |init| && Defines(init[j], key);
        assert Defines(lines[j], key);
      }
      if exists j :: 0 <= j < |lines| && Defines(lines[j], key) {
        var j :| 0 <= j < |lines| && Defines(lines[j], key);
        if j < |init| {
          assert Defines(init[j], key);
        }
      }
    }
  }

  /** The value of a key comes from the last line that defines it: a later
      line overwrites an earlier one. */
  lemma {:induction false} FoldLinesLastWins(lines: seq<string>, key: string, j: nat)
    requires j < |lines| && Defines(lines[j], key)
    requires forall k :: j < k < |lines| ==> !Defines(lines[k], key)
    ensures key in FoldLines(lines) && FoldLines(lines)[key] == LineValue(lines[j])
  {
    var init := lines[..|lines| - 1];
    var last := lines[|lines| - 1];
    if j < |lines| - 1 {
      assert !Defines(last, key);
      assert Defines(init[j], key);
      forall k | j < k < |init| ensures !Defines(init[k], key) {
        assert init[k] == lines[k];
      }
      FoldLinesLastWins(init, key, j);
    }
  }

  /** `CommandParser.parse`. */
  method Parse<J>(text: string, jsonLoads: string -> Option<J>) returns (r: Reply<J>)
    ensures var t := Strip(text);
      if t != [] && t[0] == '{' then
        r == (if jsonLoads(t).Some? then Json(jsonLoads(t).value) else UnknownReply())
      else
        r == Fields(FoldLines(Split(t, '\n')))
  {
    var t := Strip(text);
    if t != [] && t[0] == '{' {
      match jsonLoads(t)
      case Some(doc) => return Json(doc);
      case None => return UnknownReply();
    }
    var lines := Split(t, '\n');
    var result := map[];
    var i := 0;
    while i < |lines|
      invariant 0 <= i <= |lines|
      invariant result == FoldLines(lines[..i])
    {
      var line := lines[i];
      assert lines[..i + 1][..i] == lines[..i];
      if ':' in line {
        var colon := IndexOf(line, ':');
        result := result[Lower(Strip(line[..colon])) := StripQuotes(Strip(line[colon + 1..]))];
      }
      i := i + 1;
    }
    assert lines[..|lines|] == lines;
    return Fields(result);
  }
}
