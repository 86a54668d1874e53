/** `CommandInterpreter.interpret_command` (src/agent.py): the heuristic intent
    matcher and the `service_name` extractor.

    `difflib.SequenceMatcher(None, a, b).ratio()` is the parameter `ratio`,
    and `re.search` of the six service-name patterns is the parameter
    `search`, which maps a pattern's keyword and the lower-cased input to the
    pattern's second capture group when the pattern matches. */
module Interpreter {
  import opened Optional
  import opened PyText
  import opened Registry
  import opened SetFacts

  /** What `interpret_command` returns: `{"command": .., "parameters": ..}`. */
  datatype Interpretation = Interpretation(command: string, parameters: map<string, string>)

  /** The record returned when no entry clears the floor. */
  function Unknown(): Interpretation
  {
    Interpretation("unknown", map[])
  }

  /** The confidence floor: a score must be strictly above it. */
  const Floor: real := 0.3

  /** `set(s.split())`. */
  function WordSet(s: string): set<string>
  {
    set w | w in Words(s)
  }

  /** `max(n, 1)`. */
  function AtLeastOne(n: nat): (r: nat)
  {
    if n < 1 then 1 else n
  }

  /** `word_match_score`: the share of the description's distinct words that
      also occur in the input. */
  function WordOverlap(input: string, desc: string): real
  {
    (|WordSet(input) * WordSet(desc)| as real) / (AtLeastOne(|WordSet(desc)|) as real)
  }

  /** `combined_score` of one registry entry against the lower-cased,
      stripped input. */
  function Score(input: string, c: Command, ratio: (string, string) -> real): real
  {
    var desc := Lower(c.description);
    ratio(input, desc) * 0.6 + WordOverlap(input, desc) * 0.4
  }

  /** The scores of all entries, in registry order. */
  function Scores(input: string, reg: Table, ratio: (string, string) -> real): seq<real>
  {
    seq(|reg|, i requires 0 <= i < |reg| => Score(input, reg[i], ratio))
  }

  lemma RatioAtMostOne(c: real, d: real)
    requires 0.0 <= c <= d && 0.0 < d
    ensures 0.0 <= c / d <= 1.0
  {
  }

  /** The word overlap lies in [0, 1]. */
  lemma WordOverlapBounds(input: string, desc: string)
    ensures 0.0 <= WordOverlap(input, desc) <= 1.0
  {
    var common := WordSet(input) * WordSet(desc);
    SubsetCardinality(common, WordSet(desc));
    var d := AtLeastOne(|WordSet(desc)|);
    RatioAtMostOne(|common| as real, d as real);
  }

  /** With a similarity ratio in [0, 1], the combined score lies in [0, 1]. */
  lemma ScoreBounds(input: string, c: Command, ratio: (string, string) -> real)
    requires 0.0 <= ratio(input, Lower(c.description)) <= 1.0
    ensures 0.0 <= Score(input, c, ratio) <= 1.0
  {
    WordOverlapBounds(input, Lower(c.description));
  }

  /** A description with at least one word overlaps itself completely. */
  lemma SelfOverlap(d: string)
    requires Words(d) != []
    ensures WordOverlap(d, d) == 1.0
  {
    var w := WordSet(d);
    assert Words(d)[0] in w;
    assert w != {};
    assert w * w == w;
    var n := |w|;
    assert n >= 1;
    assert AtLeastOne(n) == n;
    SelfQuotient(n as real);
  }

  lemma SelfQuotient(x: real)
    requires x > 0.0
    ensures x / x == 1.0
  {
  }

  /** An input that, lower-cased and stripped, equals an entry's lower-cased
      description scores at least 0.4 against that entry, so the matcher
      settles on some entry instead of answering `unknown`. */
  lemma IdenticalInputMatched(userInput: string, reg: Table, k: nat, ratio: (string, string) -> real)
    requires k < |reg|
    requires Strip(Lower(userInput)) == Lower(reg[k].description)
    requires Words(Lower(reg[k].description)) != []
    requires 0.0 <= ratio(Lower(reg[k].description), Lower(reg[k].description)) <= 1.0
    ensures Score(Strip(Lower(userInput)), reg[k], ratio) >= 0.4
    ensures Select(Scores(Strip(Lower(userInput)), reg, ratio)).Some?
  {
    var input := Strip(Lower(userInput));
    SelfOverlap(Lower(reg[k].description));
    var scores := Scores(input, reg, ratio);
    assert scores[k] == Score(input, reg[k], ratio);
    assert scores[k] > Floor;
  }

  /** `r` is the entry the matcher settles on: the first entry with the
      highest score when that score is above the floor, and none otherwise. */
  ghost predicate IsSelection(scores: seq<real>, r: Option<nat>)
  {
    match r
    case None => forall i :: 0 <= i < |scores| ==> scores[i] <= Floor
    case Some(k) =>
      && k < |scores| && scores[k] > Floor
      && (forall i :: 0 <= i < |scores| ==> scores[i] <= scores[k])
      && (forall i :: 0 <= i < k ==> scores[i] < scores[k])
  }

  /** One step of the running best: a new score replaces the best only when
      it is strictly larger and above the floor. */
  lemma SelectionStep(prefix: seq<real>, x: real, best: Option<nat>)
    requires IsSelection(prefix, best)
    ensures var bestScore := if best.Some? then prefix[best.value] else 0.0;
      IsSelection(prefix + [x], if x > bestScore && x > Floor then Some(|prefix|) else best)
  {
    var s := prefix + [x];
    assert forall i :: 0 <= i < |prefix| ==> s[i] == prefix[i];
  }

  /** At most one selection exists for given scores. */
  lemma SelectionUnique(scores: seq<real>, a: Option<nat>, b: Option<nat>)
    requires IsSelection(scores, a) && IsSelection(scores, b)
    ensures a == b
  {
  }

  /** The running best of the matching loop, as a function of the scores. */
  function Select(scores: seq<real>): (r: Option<nat>)
    ensures IsSelection(scores, r)
  {
    if scores == [] then None
    else
      var prev := Select(scores[..|scores| - 1]);
      var last := scores[|scores| - 1];
      var best := if prev.Some? then scores[prev.value] else 0.0;
      if last > best && last > Floor then Some(|scores| - 1) else prev
  }

  /** The scoring loop of `interpret_command`: keeps the running best score,
      replacing it only by a strictly larger score that is above the floor. */
  method SelectBest(input: string, reg: Table, ratio: (string, string) -> real) returns (best: Option<nat>)
    ensures IsSelection(Scores(input, reg, ratio), best)
  {
    ghost var scores := Scores(input, reg, ratio);
    best := None;
    var bestScore := 0.0;
    var i := 0;
    while i < |reg|
      invariant 0 <= i <= |reg|
      invariant IsSelection(scores[..i], best)
      invariant bestScore == if best.Some? then scores[best.value] else 0.0
    {
      var combined := Score(input, reg[i], ratio);
      assert scores[..i + 1] == scores[..i] + [combined];
      SelectionStep(scores[..i], combined, best);
      if combined > bestScore && combined > Floor {
        bestScore := combined;
        best := Some(i);
      }
      i := i + 1;
    }
    assert scores[..|reg|] == scores;
  }

  /** The keywords of the six service-name patterns, in the order tried. */
  function Keywords(): seq<string>
  {
    ["service", "add", "create", "new", "called", "named"]
  }

  /** Pattern `k` is the first of `keywords` that matches `text`. */
  ghost predicate FirstMatchAt(keywords: seq<string>, text: string, search: (string, string) -> Option<string>, k: int)
  {
    && 0 <= k < |keywords| && search(keywords[k], text).Some?
    && forall j :: 0 <= j < k ==> search(keywords[j], text).None?
  }

  /** The stripped capture of the first pattern that matches, if any. */
  function FirstCapture(keywords: seq<string>, text: string, search: (string, string) -> Option<string>): Option<string>
  {
    if keywords == [] then None
    else match search(keywords[0], text)
      case Some(capture) => Some(Strip(capture))
      case None => FirstCapture(keywords[1..], text, search)
  }

  /** Patterns are tried in order: there is a capture exactly when some
      pattern matches, and it is the stripped capture of the first one. */
  lemma {:induction false} FirstCaptureIsFirstMatch(keywords: seq<string>, text: string, search: (string, string) -> Option<string>)
    ensures var r := FirstCapture(keywords, text, search);
      && (r.None? <==> forall j :: 0 <= j < |keywords| ==> search(keywords[j], text).None?)
      && (r.Some? ==> exists k :: FirstMatchAt(keywords, text, search, k)
                                  && r.value == Strip(search(keywords[k], text).value))
  {
    if keywords != [] {
      if search(keywords[0], text).Some? {
        assert FirstMatchAt(keywords, text, search, 0);
      } else {
        var tail := keywords[1..];
        FirstCaptureIsFirstMatch(tail, text, search);
        assert forall j :: 1 <= j < |keywords| ==> keywords[j] == tail[j - 1];
        var r := FirstCapture(tail, text, search);
        if r.Some? {
          var k :| FirstMatchAt(tail, text, search, k) && r.value == Strip(search(tail[k], text).value);
          assert FirstMatchAt(keywords, text, search, k + 1);
        }
      }
    }
  }

  /** Patterns that do not match can be skipped. */
  lemma {:induction false} FirstCaptureSkip(keywords: seq<string>, text: string, search: (string, string) -> Option<string>, i: nat)
    requires i <= |keywords|
    requires forall j :: 0 <= j < i ==> search(keywords[j], text).None?
    ensures FirstCapture(keywords, text, search) == FirstCapture(keywords[i..], text, search)
  {
    if i > 0 {
      assert search(keywords[0], text).None?;
      assert keywords[1..][i - 1..] == keywords[i..];
      FirstCaptureSkip(keywords[1..], text, search, i - 1);
    }
  }

  /** The pattern loop of `interpret_command`: tries the patterns in order
      and stops at the first match. */
  method MatchPatterns(text: string, search: (string, string) -> Option<string>) returns (name: Option<string>)
    ensures name == FirstCapture(Keywords(), text, search)
  {
    var patterns := Keywords();
    name := None;
    var i := 0;
    while i < |patterns|
      invariant 0 <= i <= |patterns|
      invariant forall j :: 0 <= j < i ==> search(patterns[j], text).None?
    {
      var m := search(patterns[i], text);
      if m.Some? {
        FirstCaptureSkip(patterns, text, search, i);
        name := Some(Strip(m.value));
        return;
      }
      i := i + 1;
    }
    FirstCaptureSkip(patterns, text, search, i);
  }

  /** The word-count fallback on the input's words: nothing for two words or
      fewer, the last word for three, the last two joined by a space for more. */
  function Fallback(words: seq<string>): Option<string>
  {
    if |words| <= 2 then None
    else if |words| > 3 then Some(words[|words| - 2] + " " + words[|words| - 1])
    else Some(words[|words| - 1])
  }

  /** The fallback is exact: it is set exactly when there are more than two
      words, and it splits back into the input's last word (three words) or
      last two words (more than three). */
  lemma FallbackExact(words: seq<string>)
    requires forall k :: 0 <= k < |words| ==> IsWord(words[k])
    ensures Fallback(words).Some? <==> |words| > 2
    ensures |words| == 3 ==> Words(Fallback(words).value) == words[2..]
    ensures |words| > 3 ==> Words(Fallback(words).value) == words[|words| - 2..]
  {
    var n := |words|;
    if n == 3 {
      WordsOfJoin(words[2..]);
    } else if n > 3 {
      var last2 := words[n - 2..];
      assert Join(last2, ' ') == words[n - 2] + " " + words[n - 1];
      WordsOfJoin(last2);
    }
  }

  /** `service_name` as extracted from the input: the first matching
      pattern's capture when it is not empty after stripping, otherwise the
      word-count fallback on the original-case input. */
  function ServiceName(userInput: string, search: (string, string) -> Option<string>): Option<string>
  {
    var captured := FirstCapture(Keywords(), Strip(Lower(userInput)), search);
    if captured.Some? && captured.value != "" then captured
    else Fallback(Words(Strip(userInput)))
  }

  /** The parameters extracted for the chosen entry. */
  function Parameters(c: Command, userInput: string, search: (string, string) -> Option<string>): map<string, string>
  {
    if c.parameters == [] || "service_name" !in c.parameters then map[]
    else match ServiceName(userInput, search)
      case Some(name) => map["service_name" := name]
      case None => map[]
  }

  /** `interpret_command`, as a function of the input. */
  function Interpret(userInput: string, reg: Table, ratio: (string, string) -> real,
                     search: (string, string) -> Option<string>): Interpretation
  {
    var input := Strip(Lower(userInput));
    var scores := Scores(input, reg, ratio);
    match Select(scores)
    case None => Unknown()
    case Some(k) => Interpretation(reg[k].key, Parameters(reg[k], userInput, search))
  }

  /** `interpret_command`. */
  method InterpretCommand(userInput: string, reg: Table, ratio: (string, string) -> real,
                          search: (string, string) -> Option<string>) returns (r: Interpretation)
    ensures r == Interpret(userInput, reg, ratio, search)
  {
    var input := Strip(Lower(userInput));
    var best := SelectBest(input, reg, ratio);
    SelectionUnique(Scores(input, reg, ratio), best, Select(Scores(input, reg, ratio)));
    if best.None? {
      return Interpretation("unknown", map[]);
    }
    var c := reg[best.value];
    var parameters := map[];
    if c.parameters != [] && "service_name" in c.parameters {
      var name := MatchPatterns(input, search);
      if name.None? || name.value == "" {
        var words := Words(Strip(userInput));
        if |words| > 2 {
          name := Fallback(words);
        }
      }
      if name.Some? && name.value != "" {
        parameters := parameters["service_name" := name.value];
      }
    }
    r := Interpretation(c.key, parameters);
  }

  /** The result names a registry entry or is the unknown record, and the
      only parameter ever produced is `service_name`, for an entry that
      requires it. */
  lemma InterpretInRegistry(userInput: string, reg: Table, ratio: (string, string) -> real,
                            search: (string, string) -> Option<string>)
    ensures var r := Interpret(userInput, reg, ratio, search);
      && (r == Unknown() || exists i :: 0 <= i < |reg| && reg[i].key == r.command)
      && r.parameters.Keys <= {"service_name"}
      && (r.parameters != map[] ==> exists i :: 0 <= i < |reg| && reg[i].key == r.command
                                               && "service_name" in reg[i].parameters)
  {
    var input := Strip(Lower(userInput));
    var sel := Select(Scores(input, reg, ratio));
    if sel.Some? {
      var k := sel.value;
      assert reg[k].key == Interpret(userInput, reg, ratio, search).command;
    }
  }

  /** The chosen entry is the first one with the highest score, provided that
      score is above the floor; when no score is above it, the result is the
      unknown record. */
  lemma InterpretChoosesBest(userInput: string, reg: Table, ratio: (string, string) -> real,
                             search: (string, string) -> Option<string>)
    ensures var input := Strip(Lower(userInput));
      var r := Interpret(userInput, reg, ratio, search);
      && ((forall i :: 0 <= i < |reg| ==> Score(input, reg[i], ratio) <= Floor) ==> r == Unknown())
      && ((exists i :: 0 <= i < |reg| && Score(input, reg[i], ratio) > Floor) ==>
          exists k :: 0 <= k < |reg|
            && r == Interpretation(reg[k].key, Parameters(reg[k], userInput, search))
            && Score(input, reg[k], ratio) > Floor
            && (forall i :: 0 <= i < |reg| ==> Score(input, reg[i], ratio) <= Score(input, reg[k], ratio))
            && (forall i :: 0 <= i < k ==> Score(input, reg[i], ratio) < Score(input, reg[k], ratio)))
  {
    var input := Strip(Lower(userInput));
    var scores := Scores(input, reg, ratio);
    var sel := Select(scores);
    assert forall i :: 0 <= i < |reg| ==> scores[i] == Score(input, reg[i], ratio);
    if sel.Some? {
      var k := sel.value;
      assert Interpret(userInput, reg, ratio, search) == Interpretation(reg[k].key, Parameters(reg[k], userInput, search));
    }
  }

  /** A service name is never empty; it is either the stripped capture of the
      first matching pattern, or it splits into the last one or two words of
      the input. */
  lemma ServiceNameOrigin(userInput: string, search: (string, string) -> Option<string>)
    ensures var words := Words(Strip(userInput));
      match ServiceName(userInput, search)
      case None => true
      case Some(name) =>
        && name != ""
        && ((exists k :: FirstMatchAt(Keywords(), Strip(Lower(userInput)), search, k)
                         && name == Strip(search(Keywords()[k], Strip(Lower(userInput))).value))
            || (|words| == 3 && Words(name) == words[2..])
            || (|words| > 3 && Words(name) == words[|words| - 2..]))
  {
    var text := Strip(Lower(userInput));
    FirstCaptureIsFirstMatch(Keywords(), text, search);
    var words := Words(Strip(userInput));
    FallbackExact(words);
    if |words| > 2 {
      assert IsWord(words[|words| - 1]);
    }
  }
}
