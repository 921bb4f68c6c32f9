/**
  The JavaScript string operations the components rely on, written out:
  `String.prototype.trim`, `split(/\s+/)`, `toUpperCase` and the decimal
  rendering of a non-negative integer in a template literal.
 */
module JsString {

  /** The characters that `\s` matches and that `trim` removes: the WhiteSpace
      and LineTerminator characters of sections 12.2 and 12.3 of ECMA-262. */
  predicate IsWhitespace(c: char)
    ensures IsWhitespace(c) ==> !('a' <= c <= 'z' || 'A' <= c <= 'Z' || '0' <= c <= '9')
    ensures IsWhitespace(c) ==> c as int < 0x80 || c as int >= 0xA0
  {
    || c == '\t' || c == '\n' || c == '\U{B}' || c == '\U{C}' || c == '\r' || c == ' '
    || c == '\U{A0}' || c == '\U{1680}' || ('\U{2000}' <= c <= '\U{200A}')
    || c == '\U{2028}' || c == '\U{2029}' || c == '\U{202F}' || c == '\U{205F}'
    || c == '\U{3000}' || c == '\U{FEFF}'
  }

  predicate AllWhitespace(s: string) {
    forall k :: 0 <= k < |s| ==> IsWhitespace(s[k])
  }

  predicate NoWhitespace(s: string) {
    forall k :: 0 <= k < |s| ==> !IsWhitespace(s[k])
  }

  /** Neither the first nor the last character is whitespace: what `trim` leaves. */
  predicate IsTrimmed(s: string) {
    s == [] || (!IsWhitespace(s[0]) && !IsWhitespace(s[|s| - 1]))
  }

  lemma {:induction false} AllWhitespaceConcat(a: string, b: string)
    ensures AllWhitespace(a + b) <==> AllWhitespace(a) && AllWhitespace(b)
  {
    assert forall k :: 0 <= k < |a| ==> (a + b)[k] == a[k];
    assert forall k :: 0 <= k < |b| ==> (a + b)[|a| + k] == b[k];
  }

  // ---------------------------------------------------------------- trim

  /** `s` without its leading whitespace. */
  function TrimStart(s: string): (r: string)
    ensures |r| <= |s| && r == s[|s| - |r|..]
    ensures AllWhitespace(s[..|s| - |r|])
    ensures r == [] || !IsWhitespace(r[0])
  {
    if s != [] && IsWhitespace(s[0]) then TrimStart(s[1..]) else s
  }

  /** `s` without its trailing whitespace. */
  function TrimEnd(s: string): (r: string)
    ensures |r| <= |s| && r == s[..|r|]
    ensures AllWhitespace(s[|r|..])
    ensures r == [] || !IsWhitespace(r[|r| - 1])
  {
    if s != [] && IsWhitespace(s[|s| - 1]) then TrimEnd(s[..|s| - 1]) else s
  }

  /** `s.trim()`: `s` without its leading and trailing whitespace. */
  function Trim(s: string): (r: string)
    ensures IsTrimmed(r)
    ensures r == [] <==> AllWhitespace(s)
  {
    var t := TrimStart(s);
    TrimStartEmpty(s);
    TrimEndEmpty(t);
    TrimEndKeepsStart(t);
    TrimEnd(t)
  }

  lemma {:induction false} TrimStartEmpty(s: string)
    ensures TrimStart(s) == [] <==> AllWhitespace(s)
  {
    var r := TrimStart(s);
    assert r != [] ==> r[0] == s[|s| - |r|];
    assert r == [] ==> s[..|s|] == s;
  }

  lemma {:induction false} TrimEndEmpty(t: string)
    requires t == [] || !IsWhitespace(t[0])
    ensures TrimEnd(t) == [] <==> t == []
  {
    var r := TrimEnd(t);
    assert r == [] ==> t[0..] == t;
  }

  lemma {:induction false} TrimEndKeepsStart(t: string)
    requires t == [] || !IsWhitespace(t[0])
    ensures TrimEnd(t) == [] || !IsWhitespace(TrimEnd(t)[0])
  {
    var r := TrimEnd(t);
    assert r != [] ==> r[0] == t[0];
  }

  lemma {:induction false} SplitAt<T>(s: seq<T>, n: nat)
    requires n <= |s|
    ensures s == s[..n] + s[n..]
  {
  }

  lemma {:induction false} Assoc3<T>(a: seq<T>, b: seq<T>, c: seq<T>)
    ensures a + b + c == a + (b + c)
  {
  }

  lemma {:induction false} TrimStartOfPadded(lead: string, x: string)
    requires AllWhitespace(lead)
    ensures TrimStart(lead + x) == TrimStart(x)
  {
    if lead == [] {
      assert lead + x == x;
    } else {
      assert (lead + x)[1..] == lead[1..] + x;
      TrimStartOfPadded(lead[1..], x);
    }
  }

  lemma {:induction false} TrimEndOfPadded(x: string, trail: string)
    requires AllWhitespace(trail)
    ensures TrimEnd(x + trail) == TrimEnd(x)
  {
    if trail == [] {
      assert x + trail == x;
    } else {
      var n := |trail| - 1;
      assert (x + trail)[..|x + trail| - 1] == x + trail[..n];
      TrimEndOfPadded(x, trail[..n]);
    }
  }

  lemma {:induction false} TrimStartOfCore(core: string, trail: string)
    requires core != [] && !IsWhitespace(core[0])
    ensures TrimStart(core + trail) == core + trail
  {
    assert (core + trail)[0] == core[0];
  }

  lemma {:induction false} TrimEndOfCore(core: string)
    requires core != [] && !IsWhitespace(core[|core| - 1])
    ensures TrimEnd(core) == core
  {
  }

  /** Trimming recovers the trimmed core of a padded string: `trim` removes
      exactly the surrounding whitespace and nothing else. */
  lemma {:induction false} TrimOfPadded(lead: string, core: string, trail: string)
    requires AllWhitespace(lead) && AllWhitespace(trail) && IsTrimmed(core)
    ensures Trim(lead + core + trail) == core
  {
    Assoc3(lead, core, trail);
    TrimStartOfPadded(lead, core + trail);
    if core == [] {
      assert core + trail == trail;
      TrimStartEmpty(trail);
    } else {
      TrimStartOfCore(core, trail);
      TrimEndOfPadded(core, trail);
      TrimEndOfCore(core);
    }
  }

  /** Every string is its trimmed form with a whitespace prefix and suffix. */
  lemma {:induction false} TrimDecomposes(s: string) returns (lead: string, trail: string)
    ensures AllWhitespace(lead) && AllWhitespace(trail)
    ensures s == lead + Trim(s) + trail
  {
    var t := TrimStart(s);
    var r := TrimEnd(t);
    lead, trail := s[..|s| - |t|], t[|r|..];
    SplitAt(s, |s| - |t|);
    SplitAt(t, |r|);
    Assoc3(lead, r, trail);
  }

  /** Surrounding whitespace never changes what `trim` returns. */
  lemma {:induction false} TrimIgnoresPadding(lead: string, s: string, trail: string)
    requires AllWhitespace(lead) && AllWhitespace(trail)
    ensures Trim(lead + s + trail) == Trim(s)
  {
    var p, q := TrimDecomposes(s);
    Regroup(lead, p, Trim(s), q, trail);
    AllWhitespaceConcat(lead, p);
    AllWhitespaceConcat(q, trail);
    TrimOfPadded(lead + p, Trim(s), q + trail);
  }

  lemma {:induction false} Regroup<T>(a: seq<T>, b: seq<T>, c: seq<T>, d: seq<T>, e: seq<T>)
    ensures a + (b + c + d) + e == (a + b) + c + (d + e)
  {
  }

  // ---------------------------------------------------------------- split

  /** The index of the first whitespace character of `s`, or `|s|`. */
  function WhitespaceIndex(s: string): (i: nat)
    ensures i <= |s|
    ensures forall k :: 0 <= k < i ==> !IsWhitespace(s[k])
    ensures i < |s| ==> IsWhitespace(s[i])
  {
    if s == [] || IsWhitespace(s[0]) then 0 else 1 + WhitespaceIndex(s[1..])
  }

  /** The end of the whitespace run that starts at `i`: the greedy match of `\s+`. */
  function RunEnd(s: string, i: nat): (j: nat)
    requires i < |s| && IsWhitespace(s[i])
    ensures i < j <= |s|
    ensures forall k :: i <= k < j ==> IsWhitespace(s[k])
    ensures j < |s| ==> !IsWhitespace(s[j])
    decreases |s| - i
  {
    if i + 1 < |s| && IsWhitespace(s[i + 1]) then RunEnd(s, i + 1) else i + 1
  }

  /** `s.split(/\s+/)`: the pieces of `s` between maximal runs of whitespace.
      The empty string gives `[""]`. */
  function Split(s: string): (r: seq<string>)
    ensures |r| >= 1
    decreases |s|
  {
    var i := WhitespaceIndex(s);
    if i == |s| then [s] else [s[..i]] + Split(s[RunEnd(s, i)..])
  }

  /** The whitespace runs that `Split` drops, in order. */
  function Separators(s: string): (r: seq<string>)
    ensures |r| + 1 == |Split(s)|
    decreases |s|
  {
    var i := WhitespaceIndex(s);
    if i == |s| then [] else var j := RunEnd(s, i); [s[i..j]] + Separators(s[j..])
  }

  /** `words[0] + seps[0] + words[1] + ... + words[n]`. */
  function Join(words: seq<string>, seps: seq<string>): string
    requires |words| == |seps| + 1
    decreases |seps|
  {
    if seps == [] then words[0] else words[0] + seps[0] + Join(words[1..], seps[1..])
  }

  /** The shape of what `Split` and `Separators` produce: pieces without
      whitespace, all but the first and the last non-empty, and non-empty
      whitespace separators between them. */
  predicate IsWordList(words: seq<string>, seps: seq<string>) {
    && |words| == |seps| + 1
    && (forall k :: 0 <= k < |words| ==> NoWhitespace(words[k]))
    && (forall k :: 0 < k < |words| - 1 ==> words[k] != [])
    && (forall k :: 0 <= k < |seps| ==> seps[k] != [] && AllWhitespace(seps[k]))
  }

  lemma {:induction false} IsWordListCons(w: string, sep: string, words: seq<string>, seps: seq<string>)
    requires IsWordList(words, seps) && NoWhitespace(w) && sep != [] && AllWhitespace(sep)
    requires |words| > 1 ==> words[0] != []
    ensures IsWordList([w] + words, [sep] + seps)
  {
    var ws, ss := [w] + words, [sep] + seps;
    assert forall k :: 0 < k < |ws| ==> ws[k] == words[k - 1];
    assert forall k :: 0 < k < |ss| ==> ss[k] == seps[k - 1];
  }

  lemma {:induction false} IsWordListTail(words: seq<string>, seps: seq<string>)
    requires IsWordList(words, seps) && seps != []
    ensures IsWordList(words[1..], seps[1..])
    ensures NoWhitespace(words[0]) && seps[0] != [] && AllWhitespace(seps[0])
    ensures |words| > 2 ==> words[1] != []
  {
    var ws, ss := words[1..], seps[1..];
    assert forall k :: 0 <= k < |ws| ==> ws[k] == words[k + 1];
    assert forall k :: 0 <= k < |ss| ==> ss[k] == seps[k + 1];
  }

  lemma {:induction false} JoinCons(w: string, sep: string, words: seq<string>, seps: seq<string>)
    requires |words| == |seps| + 1
    ensures Join([w] + words, [sep] + seps) == w + sep + Join(words, seps)
  {
    assert ([w] + words)[1..] == words;
    assert ([sep] + seps)[1..] == seps;
  }

  lemma {:induction false} SlicesAt(s: string, i: nat, j: nat)
    requires i <= j <= |s|
    ensures s == s[..i] + s[i..j] + s[j..]
  {
  }

  lemma {:induction false} SlicesOf(w: string, sep: string, rest: string)
    ensures var s := w + sep + rest;
      s[..|w|] == w && s[|w|..|w| + |sep|] == sep && s[|w| + |sep|..] == rest
  {
  }

  /** One step of `Split` and `Separators`: the first piece, the first run, and the rest. */
  lemma {:induction false} SplitStep(s: string)
    requires WhitespaceIndex(s) < |s|
    ensures var i := WhitespaceIndex(s); var j := RunEnd(s, i);
      Split(s) == [s[..i]] + Split(s[j..]) && Separators(s) == [s[i..j]] + Separators(s[j..])
  {
  }

  /** Putting the pieces back together with the dropped runs gives back `s`,
      and the pieces and runs have the shape `IsWordList` describes. */
  lemma {:induction false} JoinSplit(s: string)
    ensures IsWordList(Split(s), Separators(s))
    ensures Join(Split(s), Separators(s)) == s
  {
    SplitShape(s);
    SplitRejoins(s);
  }

  /** A string that starts with a non-whitespace character has a non-empty first piece. */
  lemma {:induction false} FirstPieceNonEmpty(t: string)
    requires t != [] && !IsWhitespace(t[0])
    ensures Split(t)[0] != []
  {
    assert Split(t)[0] == t[..WhitespaceIndex(t)];
  }

  /** The first piece is a prefix of the string. */
  lemma {:induction false} FirstPieceStarts(t: string)
    requires t != [] && !IsWhitespace(t[0])
    ensures Split(t)[0] != [] && Split(t)[0][0] == t[0]
  {
    FirstPieceNonEmpty(t);
    assert Split(t)[0] == t[..WhitespaceIndex(t)];
  }

  lemma {:induction false} SplitOfEmpty()
    ensures Split([]) == [[]]
  {
  }

  /** The first piece has no whitespace, the run after it is non-empty
      whitespace, and what follows the run does not start with whitespace. */
  lemma {:induction false} FirstWordAndRun(s: string)
    requires WhitespaceIndex(s) < |s|
    ensures var i := WhitespaceIndex(s); var j := RunEnd(s, i);
      && NoWhitespace(s[..i]) && s[i..j] != [] && AllWhitespace(s[i..j])
      && (s[j..] == [] || !IsWhitespace(s[j..][0]))
  {
    var i := WhitespaceIndex(s);
    var j := RunEnd(s, i);
    assert forall k :: 0 <= k < i ==> s[..i][k] == s[k];
    assert forall k :: 0 <= k < j - i ==> s[i..j][k] == s[i + k];
    assert s[j..] != [] ==> s[j..][0] == s[j];
  }

  lemma {:induction false} SplitShape(s: string)
    ensures IsWordList(Split(s), Separators(s))
    decreases |s|
  {
    var i := WhitespaceIndex(s);
    if i == |s| {
      assert Split(s) == [s];
    } else {
      var j := RunEnd(s, i);
      var t := s[j..];
      SplitShape(t);
      SplitStep(s);
      FirstWordAndRun(s);
      if t == [] {
        SplitOfEmpty();
      } else {
        FirstPieceNonEmpty(t);
      }
      IsWordListCons(s[..i], s[i..j], Split(t), Separators(t));
    }
  }

  lemma {:induction false} SplitRejoins(s: string)
    ensures Join(Split(s), Separators(s)) == s
    decreases |s|
  {
    var i := WhitespaceIndex(s);
    if i == |s| {
      assert Split(s) == [s];
    } else {
      var j := RunEnd(s, i);
      var t := s[j..];
      SplitRejoins(t);
      SplitStep(s);
      JoinCons(s[..i], s[i..j], Split(t), Separators(t));
      SlicesAt(s, i, j);
    }
  }

  lemma {:induction false} WhitespaceIndexOfWord(w: string)
    requires NoWhitespace(w)
    ensures WhitespaceIndex(w) == |w|
  {
  }

  lemma {:induction false} WhitespaceIndexBeforeSeparator(w: string, sep: string, rest: string)
    requires NoWhitespace(w) && sep != [] && AllWhitespace(sep)
    ensures WhitespaceIndex(w + sep + rest) == |w|
  {
    var s := w + sep + rest;
    assert forall k :: 0 <= k < |w| ==> s[k] == w[k];
    assert s[|w|] == sep[0];
  }

  /** Splitting a word, a separator and the rest: the word, then the pieces of the rest. */
  lemma {:induction false} SplitAfterWord(w: string, sep: string, rest: string)
    requires NoWhitespace(w) && sep != [] && AllWhitespace(sep)
    requires rest == [] || !IsWhitespace(rest[0])
    ensures Split(w + sep + rest) == [w] + Split(rest)
    ensures Separators(w + sep + rest) == [sep] + Separators(rest)
  {
    var s := w + sep + rest;
    WhitespaceIndexBeforeSeparator(w, sep, rest);
    RunEndOfSeparator(w, sep, rest);
    SlicesOf(w, sep, rest);
    SplitStep(s);
  }

  lemma {:induction false} RunEndOfSeparator(w: string, sep: string, rest: string)
    requires NoWhitespace(w) && sep != [] && AllWhitespace(sep)
    requires rest == [] || !IsWhitespace(rest[0])
    ensures var s := w + sep + rest;
      |w| < |s| && IsWhitespace(s[|w|]) && RunEnd(s, |w|) == |w| + |sep|
  {
    var s := w + sep + rest;
    assert forall k :: 0 <= k < |sep| ==> s[|w| + k] == sep[k];
    assert rest != [] ==> s[|w| + |sep|] == rest[0];
  }

  lemma {:induction false} JoinStart(words: seq<string>, seps: seq<string>)
    requires |words| == |seps| + 1 && words[0] != []
    ensures Join(words, seps) != [] && Join(words, seps)[0] == words[0][0]
  {
  }

  /** What follows the first separator of joined words does not start with whitespace. */
  lemma {:induction false} RestStart(words: seq<string>, seps: seq<string>)
    requires IsWordList(words, seps) && seps != []
    ensures var rest := Join(words[1..], seps[1..]); rest == [] || !IsWhitespace(rest[0])
  {
    if words[1] != [] {
      JoinStart(words[1..], seps[1..]);
      assert NoWhitespace(words[1]);
    } else {
      assert seps[1..] == [];
    }
  }

  /** Splitting joined words gives back the words and the separators, whatever
      the separators are: a run of several whitespace characters is a single
      separator, as the `+` in `/\s+/` makes it. */
  lemma {:induction false} SplitJoin(words: seq<string>, seps: seq<string>)
    requires IsWordList(words, seps)
    ensures Split(Join(words, seps)) == words
    ensures Separators(Join(words, seps)) == seps
    decreases |seps|
  {
    if seps == [] {
      WhitespaceIndexOfWord(words[0]);
    } else {
      IsWordListTail(words, seps);
      RestStart(words, seps);
      SplitJoin(words[1..], seps[1..]);
      JoinStep(words, seps);
      SplitAfterWord(words[0], seps[0], Join(words[1..], seps[1..]));
      HeadTail(words);
      HeadTail(seps);
    }
  }

  lemma {:induction false} JoinStep(words: seq<string>, seps: seq<string>)
    requires |words| == |seps| + 1 && seps != []
    ensures Join(words, seps) == words[0] + seps[0] + Join(words[1..], seps[1..])
  {
  }

  lemma {:induction false} HeadTail<T>(s: seq<T>)
    requires s != []
    ensures s == [s[0]] + s[1..]
  {
  }

  lemma {:induction false} JoinEnd(words: seq<string>, seps: seq<string>)
    requires |words| == |seps| + 1 && words[|words| - 1] != []
    ensures var s := Join(words, seps); var w := words[|words| - 1];
      s != [] && s[|s| - 1] == w[|w| - 1]
    decreases |seps|
  {
    if seps != [] {
      JoinEnd(words[1..], seps[1..]);
    }
  }

  /** An empty first piece comes only from an empty string or a leading run. */
  lemma {:induction false} SplitFirstEmpty(s: string)
    ensures Split(s)[0] == [] ==> s == [] || IsWhitespace(s[0])
  {
    assert Split(s)[0] == s[..WhitespaceIndex(s)];
  }

  /** An empty last piece comes only from an empty string or a trailing run. */
  lemma {:induction false} SplitLastEmpty(s: string)
    ensures Split(s)[|Split(s)| - 1] == [] ==> s == [] || IsWhitespace(s[|s| - 1])
    decreases |s|
  {
    var i := WhitespaceIndex(s);
    if i < |s| {
      var j := RunEnd(s, i);
      var t := s[j..];
      SplitLastEmpty(t);
      SplitStep(s);
      LastOfConcat([s[..i]], Split(t));
      LastOfRest(s, i, j);
    }
  }

  lemma {:induction false} LastOfConcat<T>(a: seq<T>, b: seq<T>)
    requires b != []
    ensures (a + b)[|a + b| - 1] == b[|b| - 1]
  {
  }

  /** After the run `s[i..j]`, either nothing is left and `s` ends in whitespace,
      or the rest ends where `s` ends. */
  lemma {:induction false} LastOfRest(s: string, i: nat, j: nat)
    requires i < |s| && IsWhitespace(s[i]) && j == RunEnd(s, i)
    ensures s[j..] == [] ==> IsWhitespace(s[|s| - 1])
    ensures s[j..] != [] ==> s[j..][|s[j..]| - 1] == s[|s| - 1]
  {
  }

  /** The pieces of a non-empty string without surrounding whitespace are all non-empty. */
  lemma {:induction false} SplitOfTrimmed(s: string)
    requires s != [] && IsTrimmed(s)
    ensures forall k :: 0 <= k < |Split(s)| ==> Split(s)[k] != []
  {
    SplitShape(s);
    SplitFirstEmpty(s);
    SplitLastEmpty(s);
  }

  // ---------------------------------------------------------------- toUpperCase

  /** The upper-case mapping of a character, for the ASCII letters. */
  function UpperChar(c: char): (u: char)
    ensures 'a' <= c <= 'z' ==> u as int == c as int - 32
    ensures !('a' <= c <= 'z') ==> u == c
    ensures !('a' <= u <= 'z')
  {
    if 'a' <= c <= 'z' then (c as int - 32) as char else c
  }

  /** `s.toUpperCase()`, character by character. */
  function ToUpperCase(s: string): (r: string)
    ensures |r| == |s|
    ensures forall k :: 0 <= k < |s| ==> r[k] == UpperChar(s[k])
  {
    if s == [] then [] else [UpperChar(s[0])] + ToUpperCase(s[1..])
  }

  /** Upper-casing twice is upper-casing once. */
  lemma {:induction false} ToUpperCaseIdempotent(s: string)
    ensures ToUpperCase(ToUpperCase(s)) == ToUpperCase(s)
  {
  }

  // ---------------------------------------------------------------- numbers

  predicate IsDigit(c: char) {
    '0' <= c <= '9'
  }

  function DigitChar(d: nat): (c: char)
    requires d < 10
    ensures IsDigit(c) && c as int - '0' as int == d
  {
    ('0' as int + d) as char
  }

  /** The decimal rendering of `n`, as `${n}` gives it for an integer. */
  function NatToString(n: nat): (r: string)
    ensures r != [] && forall k :: 0 <= k < |r| ==> IsDigit(r[k])
    ensures |r| > 1 ==> r[0] != '0'
  {
    if n < 10 then [DigitChar(n)] else NatToString(n / 10) + [DigitChar(n % 10)]
  }

  /** The value of a string of decimal digits. */
  function DigitsValue(s: string): int
    requires forall k :: 0 <= k < |s| ==> IsDigit(s[k])
  {
    if s == [] then 0 else 10 * DigitsValue(s[..|s| - 1]) + (s[|s| - 1] as int - '0' as int)
  }

  /** Reading the rendering back gives the number. */
  lemma {:induction false} NatToStringRoundTrip(n: nat)
    ensures DigitsValue(NatToString(n)) == n
  {
    if n >= 10 {
      NatToStringRoundTrip(n / 10);
      var r := NatToString(n);
      assert r[..|r| - 1] == NatToString(n / 10);
    }
  }
}
