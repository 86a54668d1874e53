/** The Python `str` operations the core relies on, stated over `seq<char>`:
    `strip()`, `strip(c)`, `lower()`, `split(sep)`, `split()`, `sep.join(..)`,
    decimal formatting of an `int` and the `repr` of a list of strings. */
module PyText {

  /** `str.isspace()` for one character: the characters Python treats as
      whitespace in `strip()` and `split()`. */
  predicate IsSpace(c: char)
  {
    c == ' ' || c == '\t' || c == '\n' || c == '\r' || c == '\U{B}' || c == '\U{C}'
    || ('\U{1C}' <= c <= '\U{1F}') || c == '\U{85}' || c == '\U{A0}' || c == '\U{1680}'
    || ('\U{2000}' <= c <= '\U{200A}') || c == '\U{2028}' || c == '\U{2029}' || c == '\U{202F}'
    || c == '\U{205F}' || c == '\U{3000}'
  }

  /** The two character classes the core strips: whitespace (`strip()`) and
      the double quote (`strip('"')`). */
  datatype CharClass = Whitespace | DoubleQuote

  predicate InClass(k: CharClass, c: char)
  {
    match k
    case Whitespace => IsSpace(c)
    case DoubleQuote => c == '"'
  }

  /** Drops the leading characters of class `k`. */
  function TrimLeft(s: string, k: CharClass): string
  {
    if s != [] && InClass(k, s[0]) then TrimLeft(s[1..], k) else s
  }

  /** Drops the trailing characters of class `k`. */
  function TrimRight(s: string, k: CharClass): string
  {
    if s != [] && InClass(k, s[|s| - 1]) then TrimRight(s[..|s| - 1], k) else s
  }

  /** `TrimLeft` removes a prefix made of class characters, and no more. */
  lemma {:induction false} TrimLeftSuffix(s: string, k: CharClass)
    ensures var r := TrimLeft(s, k);
      && |r| <= |s| && r == s[|s| - |r|..]
      && (forall i :: 0 <= i < |s| - |r| ==> InClass(k, s[i]))
      && (r == [] || !InClass(k, r[0]))
  {
    if s != [] && InClass(k, s[0]) {
      TrimLeftSuffix(s[1..], k);
    }
  }

  /** `TrimRight` removes a suffix made of class characters, and no more. */
  lemma {:induction false} TrimRightPrefix(s: string, k: CharClass)
    ensures var r := TrimRight(s, k);
      && |r| <= |s| && r == s[..|r|]
      && (forall i :: |r| <= i < |s| ==> InClass(k, s[i]))
      && (r == [] || !InClass(k, r[|r| - 1]))
  {
    if s != [] && InClass(k, s[|s| - 1]) {
      TrimRightPrefix(s[..|s| - 1], k);
    }
  }

  /** `r` is `s[lo..lo + |r|]` and everything around it is of class `k`. */
  ghost predicate TrimmedSlice(s: string, r: string, lo: int, k: CharClass)
  {
    && 0 <= lo <= |s| - |r| && r == s[lo..lo + |r|]
    && (forall i :: 0 <= i < lo ==> InClass(k, s[i]))
    && (forall i :: lo + |r| <= i < |s| ==> InClass(k, s[i]))
  }

  /** Trimming both ends of `s`: `s.strip()` for `Whitespace`,
      `s.strip('"')` for `DoubleQuote`. */
  function Trim(s: string, k: CharClass): string
  {
    TrimRight(TrimLeft(s, k), k)
  }

  function Strip(s: string): string
  {
    Trim(s, Whitespace)
  }

  function StripQuotes(s: string): string
  {
    Trim(s, DoubleQuote)
  }

  /** Trimming cuts out a slice of `s`, removes only characters of the class,
      and leaves none of them at either end. */
  lemma TrimSlice(s: string, k: CharClass)
    ensures exists lo :: TrimmedSlice(s, Trim(s, k), lo, k)
    ensures var r := Trim(s, k); r == [] || (!InClass(k, r[0]) && !InClass(k, r[|r| - 1]))
  {
    var l := TrimLeft(s, k);
    var r := TrimRight(l, k);
    TrimLeftSuffix(s, k);
    TrimRightPrefix(l, k);
    var lo := |s| - |l|;
    assert r == s[lo..lo + |r|];
    forall i | lo + |r| <= i < |s| ensures InClass(k, s[i]) {
      assert s[i] == l[i - lo];
    }
    assert TrimmedSlice(s, r, lo, k);
    assert Trim(s, k) == r;
  }

  /** `str.lower()` on one character; only ASCII letters are mapped. */
  function LowerChar(c: char): char
  {
    if 'A' <= c <= 'Z' then (c as int + 32) as char else c
  }

  /** `s.lower()`, character by character. */
  function Lower(s: string): string
  {
    seq(|s|, i requires 0 <= i < |s| => LowerChar(s[i]))
  }

  /** Position of the first occurrence of `c` in `s`. */
  function IndexOf(s: string, c: char): (i: nat)
    requires c in s
    ensures i < |s| && s[i] == c && c !in s[..i]
  {
    if s[0] == c then 0
    else
      var j := IndexOf(s[1..], c);
      assert s[..1 + j] == [s[0]] + s[1..][..j];
      1 + j
  }

  /** `s.split(sep)` for a one-character separator: never empty, and no part
      contains the separator. */
  function Split(s: string, sep: char): (parts: seq<string>)
    ensures |parts| >= 1
    ensures forall k :: 0 <= k < |parts| ==> sep !in parts[k]
    decreases |s|
  {
    if sep !in s then [s]
    else
      var i := IndexOf(s, sep);
      [s[..i]] + Split(s[i + 1..], sep)
  }

  /** `sep.join(parts)` for a one-character separator. */
  function Join(parts: seq<string>, sep: char): string
    requires |parts| >= 1
  {
    if |parts| == 1 then parts[0] else parts[0] + [sep] + Join(parts[1..], sep)
  }

  /** Joining the parts of a split gives back the text. */
  lemma {:induction false} JoinSplit(s: string, sep: char)
    ensures Join(Split(s, sep), sep) == s
    decreases |s|
  {
    if sep in s {
      var i := IndexOf(s, sep);
      var rest := Split(s[i + 1..], sep);
      assert Split(s, sep) == [s[..i]] + rest;
      assert ([s[..i]] + rest)[1..] == rest;
      JoinSplit(s[i + 1..], sep);
      assert s == s[..i] + [sep] + s[i + 1..];
    }
  }

  /** Splitting a join of separator-free parts gives back the parts. */
  lemma {:induction false} SplitJoin(parts: seq<string>, sep: char)
    requires |parts| >= 1
    requires forall k :: 0 <= k < |parts| ==> sep !in parts[k]
    ensures Split(Join(parts, sep), sep) == parts
  {
    if |parts| > 1 {
      var s := Join(parts, sep);
      var rest := Join(parts[1..], sep);
      assert s == parts[0] + [sep] + rest;
      assert s[|parts[0]|] == sep;
      assert s[..|parts[0]|] == parts[0];
      var i := IndexOf(s, sep);
      assert i == |parts[0]|;
      assert s[i + 1..] == rest;
      SplitJoin(parts[1..], sep);
    }
  }

  /** A non-empty run of non-whitespace characters, as `split()` produces. */
  predicate IsWord(w: string)
  {
    w != [] && forall i :: 0 <= i < |w| ==> !IsSpace(w[i])
  }

  /** Length of the leading run of non-whitespace characters of `s`. */
  function WordEnd(s: string): (n: nat)
    ensures n <= |s|
    ensures forall i :: 0 <= i < n ==> !IsSpace(s[i])
    ensures n == |s| || IsSpace(s[n])
  {
    if s == [] || IsSpace(s[0]) then 0 else 1 + WordEnd(s[1..])
  }

  /** `s.split()` with no argument: the maximal runs of non-whitespace. */
  function Words(s: string): (ws: seq<string>)
    ensures forall k :: 0 <= k < |ws| ==> IsWord(ws[k])
    decreases |s|
  {
    if s == [] then []
    else if IsSpace(s[0]) then Words(s[1..])
    else
      var n := WordEnd(s);
      [s[..n]] + Words(s[n..])
  }

  /** A word followed by whitespace or by nothing is split off whole. */
  lemma {:induction false} WordsOfWordThen(w: string, t: string)
    requires IsWord(w)
    requires t == [] || IsSpace(t[0])
    ensures Words(w + t) == [w] + Words(t)
  {
    var s := w + t;
    WordEndOfWord(w, t);
    assert s[..|w|] == w && s[|w|..] == t;
  }

  lemma {:induction false} WordEndOfWord(w: string, t: string)
    requires forall i :: 0 <= i < |w| ==> !IsSpace(w[i])
    requires t == [] || IsSpace(t[0])
    ensures WordEnd(w + t) == |w|
  {
    if w != [] {
      assert (w + t)[1..] == w[1..] + t;
      WordEndOfWord(w[1..], t);
    }
  }

  /** Text made only of whitespace has no words. */
  lemma {:induction false} WordsAllSpace(s: string)
    requires forall i :: 0 <= i < |s| ==> IsSpace(s[i])
    ensures Words(s) == []
    decreases |s|
  {
    if s != [] {
      WordsAllSpace(s[1..]);
    }
  }

  /** A word of `a` cannot run on past a whitespace character that follows it. */
  lemma {:induction false} WordEndPrefix(a: string, t: string)
    requires t != [] && IsSpace(t[0])
    ensures WordEnd(a + t) == WordEnd(a)
  {
    if a != [] {
      assert (a + t)[0] == a[0];
      if !IsSpace(a[0]) {
        assert (a + t)[1..] == a[1..] + t;
        WordEndPrefix(a[1..], t);
      }
    }
  }

  /** `split()` splits independently on either side of any whitespace
      character: the words of `a + [c] + b` are those of `a` followed by
      those of `b`. */
  lemma {:induction false} WordsSplitAtSpace(a: string, c: char, b: string)
    requires IsSpace(c)
    ensures Words(a + [c] + b) == Words(a) + Words(b)
    decreases |a|
  {
    var s := a + [c] + b;
    if a == [] {
      assert s[0] == c && s[1..] == b;
    } else if IsSpace(a[0]) {
      assert s[0] == a[0] && s[1..] == a[1..] + [c] + b;
      WordsSplitAtSpace(a[1..], c, b);
    } else {
      assert s == a + ([c] + b);
      WordEndPrefix(a, [c] + b);
      var n := WordEnd(a);
      assert s[0] == a[0];
      assert s[..n] == a[..n];
      assert s[n..] == a[n..] + [c] + b;
      WordsSplitAtSpace(a[n..], c, b);
    }
  }

  /** `' '.join(ws).split() == ws` when every element is a word. */
  lemma {:induction false} WordsOfJoin(ws: seq<string>)
    requires |ws| >= 1
    requires forall k :: 0 <= k < |ws| ==> IsWord(ws[k])
    ensures Words(Join(ws, ' ')) == ws
  {
    if |ws| == 1 {
      WordsOfWordThen(ws[0], []);
      assert ws[0] + [] == ws[0];
    } else {
      var rest := Join(ws[1..], ' ');
      assert Join(ws, ' ') == ws[0] + ([' '] + rest);
      WordsOfWordThen(ws[0], [' '] + rest);
      assert ([' '] + rest)[1..] == rest;
      WordsOfJoin(ws[1..]);
    }
  }

  /** Decimal digits of `n`, as `str(n)` or an f-string writes them. */
  function NatToString(n: nat): (r: string)
    ensures |r| >= 1
    ensures forall i :: 0 <= i < |r| ==> '0' <= r[i] <= '9'
  {
    var d := ['0' + (n % 10) as char];
    if n < 10 then d else NatToString(n / 10) + d
  }

  /** `repr` of a list of strings, for names without quotes or escapes:
      `['a', 'b']`. */
  function ListRepr(xs: seq<string>): string
  {
    "[" + QuotedItems(xs) + "]"
  }

  function QuotedItems(xs: seq<string>): string
  {
    if xs == [] then ""
    else if |xs| == 1 then "'" + xs[0] + "'"
    else "'" + xs[0] + "', " + QuotedItems(xs[1..])
  }

  /** `pat in s` for strings. */
  ghost predicate Contains(s: string, pat: string)
  {
    exists i :: 0 <= i && OccursAt(s, pat, i)
  }

  predicate OccursAt(s: string, pat: string, i: nat)
  {
    i + |pat| <= |s| && s[i..i + |pat|] == pat
  }

  /** Text placed between a prefix and a suffix is contained in the whole. */
  lemma InfixContained(pre: string, mid: string, post: string)
    ensures Contains(pre + mid + post, mid)
  {
    var s := pre + mid + post;
    assert OccursAt(s, mid, |pre|);
  }

  /** Every listed name appears in the list's repr. */
  lemma {:induction false} ListReprNames(xs: seq<string>, k: nat)
    requires k < |xs|
    ensures Contains(ListRepr(xs), xs[k])
  {
    var items := QuotedItems(xs);
    QuotedItemsNames(xs, k);
    var i :| 0 <= i && OccursAt(items, xs[k], i);
    var s := ListRepr(xs);
    assert s[1 + i..1 + i + |xs[k]|] == items[i..i + |xs[k]|];
    assert OccursAt(s, xs[k], 1 + i);
  }

  lemma {:induction false} QuotedItemsNames(xs: seq<string>, k: nat)
    requires k < |xs|
    ensures Contains(QuotedItems(xs), xs[k])
  {
    if k == 0 {
      if |xs| == 1 {
        InfixContained("'", xs[0], "'");
      } else {
        InfixContained("'", xs[0], "', " + QuotedItems(xs[1..]));
        assert "'" + xs[0] + ("', " + QuotedItems(xs[1..])) == QuotedItems(xs);
      }
    } else {
      QuotedItemsNames(xs[1..], k - 1);
      var tail := QuotedItems(xs[1..]);
      var pre := "'" + xs[0] + "', ";
      var i :| 0 <= i && OccursAt(tail, xs[k], i);
      var s := QuotedItems(xs);
      assert s == pre + tail;
      assert s[|pre| + i..|pre| + i + |xs[k]|] == tail[i..i + |xs[k]|];
      assert OccursAt(s, xs[k], |pre| + i);
    }
  }
}
