/**
 * The parts of Python's `str` and `list` built-ins that the modelled code relies on:
 * whitespace, `strip`, `split()`, `join`, `lower`, `endswith`, `split(sep)`, slicing
 * with negative bounds, negative indexing and `str(int)`.
 *
 * Whitespace is Python's ASCII whitespace (`str.isspace` on code points below 128):
 * space, tab, line feed, vertical tab, form feed, carriage return and the four
 * information separators 0x1C-0x1F.
 */
module PyStr {
  import opened Results

  predicate IsSpace(c: char) {
    c == ' ' || ('\t' <= c <= '\r') || ('\U{1C}' <= c <= '\U{1F}')
  }

  predicate NoSpace(s: string) {
    forall i :: 0 <= i < |s| ==> !IsSpace(s[i])
  }

  predicate AllSpace(s: string) {
    forall i :: 0 <= i < |s| ==> IsSpace(s[i])
  }

  /** No whitespace at either end. */
  predicate Stripped(s: string) {
    s == [] || (!IsSpace(s[0]) && !IsSpace(s[|s| - 1]))
  }

  predicate IsDigit(c: char) {
    '0' <= c <= '9'
  }

  predicate AllDigits(s: string) {
    forall i :: 0 <= i < |s| ==> IsDigit(s[i])
  }

  function Min(a: int, b: int): int {
    if a <= b then a else b
  }

  /** Number of whitespace characters at the start of `s`. */
  function LeadingSpaces(s: string): (k: nat)
    ensures k <= |s| && AllSpace(s[..k])
    ensures k < |s| ==> !IsSpace(s[k])
  {
    if s == [] || !IsSpace(s[0]) then 0 else 1 + LeadingSpaces(s[1..])
  }

  /** Number of ASCII digits at the start of `s`. */
  function LeadingDigits(s: string): (k: nat)
    ensures k <= |s| && AllDigits(s[..k])
    ensures k < |s| ==> !IsDigit(s[k])
  {
    if s == [] || !IsDigit(s[0]) then 0 else 1 + LeadingDigits(s[1..])
  }

  /** Length of the run of non-whitespace characters at the start of `s`. */
  function TokenLength(s: string): (k: nat)
    ensures k <= |s| && NoSpace(s[..k])
    ensures k < |s| ==> IsSpace(s[k])
  {
    if s == [] || IsSpace(s[0]) then 0 else 1 + TokenLength(s[1..])
  }

  /** Python `s.lstrip()`: the text after the leading whitespace run. */
  function LStrip(s: string): (r: string)
    ensures |r| <= |s| && (r == [] || !IsSpace(r[0]))
  {
    if s != [] && IsSpace(s[0]) then LStrip(s[1..]) else s
  }

  /** `lstrip` removes exactly a leading whitespace run. */
  lemma {:induction false} LStripConcat(pre: string, t: string)
    requires AllSpace(pre) && (t == [] || !IsSpace(t[0]))
    ensures LStrip(pre + t) == t
  {
    if pre == [] {
      assert pre + t == t;
    } else {
      TailConcat(pre, t);
      LStripConcat(pre[1..], t);
    }
  }

  /** Digits followed by a non-digit (or nothing) are counted exactly. */
  lemma {:induction false} LeadingDigitsConcat(ds: string, t: string)
    requires AllDigits(ds) && (t == [] || !IsDigit(t[0]))
    ensures LeadingDigits(ds + t) == |ds|
  {
    if ds == [] {
      assert ds + t == t;
    } else {
      TailConcat(ds, t);
      LeadingDigitsConcat(ds[1..], t);
    }
  }

  /** Python `s.strip()`: the text between the outer whitespace runs. */
  function Strip(s: string): (r: string)
    ensures Stripped(r) && |r| <= |s|
    ensures r == [] <==> AllSpace(s)
  {
    if s != [] && IsSpace(s[0]) then Strip(s[1..])
    else if s != [] && IsSpace(s[|s| - 1]) then Strip(s[..|s| - 1])
    else s
  }

  /** `strip()` leaves stripped text alone, so stripping twice is stripping once. */
  lemma StripStripped(s: string)
    requires Stripped(s)
    ensures Strip(s) == s
  {
  }

  /** `s.strip()` is `s` less a whitespace prefix of `LeadingSpaces(s)` and a whitespace suffix. */
  predicate StripIsSlice(s: string) {
    var a, r := LeadingSpaces(s), Strip(s);
    a + |r| <= |s| && r == s[a..a + |r|] && AllSpace(s[..a]) && AllSpace(s[a + |r|..])
  }

  /** `s.strip()` is the slice of `s` between a whitespace prefix and a whitespace suffix. */
  lemma {:induction false} StripSlice(s: string)
    ensures var a, r := LeadingSpaces(s), Strip(s);
      a + |r| <= |s| && r == s[a..a + |r|] && AllSpace(s[..a]) && AllSpace(s[a + |r|..])
  {
    if s != [] && IsSpace(s[0]) {
      StripSlice(s[1..]);
      StripSliceHead(s);
    } else if s != [] && IsSpace(s[|s| - 1]) {
      StripSlice(s[..|s| - 1]);
      StripSliceTail(s);
    } else {
      assert LeadingSpaces(s) == 0 && Strip(s) == s;
      WholeSlice(s);
    }
  }

  lemma StripSliceHead(s: string)
    requires s != [] && IsSpace(s[0]) && StripIsSlice(s[1..])
    ensures StripIsSlice(s)
  {
    var t := s[1..];
    var a, r := LeadingSpaces(t), Strip(t);
    assert LeadingSpaces(s) == 1 + a && Strip(s) == r;
    TailSlices(s, a, a + |r|);
    AllSpaceConcat([s[0]], t[..a]);
  }

  lemma StripSliceTail(s: string)
    requires s != [] && !IsSpace(s[0]) && IsSpace(s[|s| - 1]) && StripIsSlice(s[..|s| - 1])
    ensures StripIsSlice(s)
  {
    var t := s[..|s| - 1];
    var r := Strip(t);
    assert LeadingSpaces(s) == 0 && LeadingSpaces(t) == 0 && Strip(s) == r;
    assert t[..|r|] == s[..|r|];
    assert t[|r|..] + [s[|s| - 1]] == s[|r|..];
    AllSpaceConcat(t[|r|..], [s[|s| - 1]]);
  }

  /** Slices of `s[1..]` are slices of `s` shifted by one. */
  lemma TailSlices<T>(s: seq<T>, lo: int, hi: int)
    requires s != [] && 0 <= lo <= hi <= |s| - 1
    ensures s[1..][lo..hi] == s[1 + lo..1 + hi] && s[1..][hi..] == s[1 + hi..]
    ensures s[..1 + lo] == [s[0]] + s[1..][..lo]
  {
  }

  lemma AllSpaceConcat(x: string, y: string)
    requires AllSpace(x) && AllSpace(y)
    ensures AllSpace(x + y)
  {
    assert forall i :: 0 <= i < |x + y| ==> (x + y)[i] == if i < |x| then x[i] else y[i - |x|];
  }

  /** Number of characters from `chars` at the start of `s`. */
  function LeadingIn(s: string, chars: set<char>): (k: nat)
    ensures k <= |s| && (forall i :: 0 <= i < k ==> s[i] in chars)
    ensures k < |s| ==> s[k] !in chars
  {
    if s == [] || s[0] !in chars then 0 else 1 + LeadingIn(s[1..], chars)
  }

  /** Python `s.strip(chars)` for a set of characters. */
  function StripChars(s: string, chars: set<char>): (r: string)
    ensures r == [] || (r[0] !in chars && r[|r| - 1] !in chars)
    ensures |r| <= |s|
  {
    if s != [] && s[0] in chars then StripChars(s[1..], chars)
    else if s != [] && s[|s| - 1] in chars then StripChars(s[..|s| - 1], chars)
    else s
  }

  /** `s.strip(chars)` is `s` less a prefix of `LeadingIn(s, chars)` characters and a suffix. */
  predicate StripCharsIsSlice(s: string, chars: set<char>) {
    var a, r := LeadingIn(s, chars), StripChars(s, chars);
    a + |r| <= |s| && r == s[a..a + |r|]
  }

  /** `s.strip(chars)` is the slice of `s` after the leading run of `chars`. */
  lemma {:induction false} StripCharsSlice(s: string, chars: set<char>)
    ensures var a, r := LeadingIn(s, chars), StripChars(s, chars);
      a + |r| <= |s| && r == s[a..a + |r|]
  {
    if s != [] && s[0] in chars {
      StripCharsSlice(s[1..], chars);
      StripCharsSliceHead(s, chars);
    } else if s != [] && s[|s| - 1] in chars {
      StripCharsSlice(s[..|s| - 1], chars);
      StripCharsSliceTail(s, chars);
    } else {
      assert StripChars(s, chars) == s && LeadingIn(s, chars) == 0;
      WholeSlice(s);
    }
  }

  lemma StripCharsSliceHead(s: string, chars: set<char>)
    requires s != [] && s[0] in chars && StripCharsIsSlice(s[1..], chars)
    ensures StripCharsIsSlice(s, chars)
  {
    var t := s[1..];
    var a, r := LeadingIn(t, chars), StripChars(t, chars);
    assert LeadingIn(s, chars) == a + 1 && StripChars(s, chars) == r;
    assert t[a..a + |r|] == s[1 + a..1 + a + |r|];
  }

  lemma StripCharsSliceTail(s: string, chars: set<char>)
    requires s != [] && s[0] !in chars && s[|s| - 1] in chars && StripCharsIsSlice(s[..|s| - 1], chars)
    ensures StripCharsIsSlice(s, chars)
  {
    var t := s[..|s| - 1];
    var r := StripChars(t, chars);
    assert LeadingIn(s, chars) == 0 && LeadingIn(t, chars) == 0 && StripChars(s, chars) == r;
    assert t[..|r|] == s[..|r|];
  }

  function LowerChar(c: char): char {
    if 'A' <= c <= 'Z' then (c as int + 32) as char else c
  }

  /** Python `s.lower()` on ASCII letters. */
  function Lower(s: string): (r: string)
    ensures |r| == |s|
    ensures forall i :: 0 <= i < |s| ==> r[i] == LowerChar(s[i])
  {
    seq(|s|, i requires 0 <= i < |s| => LowerChar(s[i]))
  }

  /** Case-insensitive `s` starts with the lower-case word `w`. */
  predicate StartsWithIgnoreCase(s: string, w: string) {
    |s| >= |w| && Lower(s[..|w|]) == w
  }

  predicate EndsWith(s: string, suffix: string) {
    |s| >= |suffix| && s[|s| - |suffix|..] == suffix
  }

  /** Python `s.split()`: the maximal runs of non-whitespace characters, in order. */
  function Split(s: string): (words: seq<string>)
    ensures words == [] <==> AllSpace(s)
    decreases |s|
  {
    if s == [] then []
    else if IsSpace(s[0]) then Split(s[1..])
    else
      var k := TokenLength(s);
      [s[..k]] + Split(s[k..])
  }

  /** Every word of `split()` is non-empty and holds no whitespace. */
  lemma {:induction false} SplitWords(s: string)
    ensures forall i :: 0 <= i < |Split(s)| ==> Split(s)[i] != [] && NoSpace(Split(s)[i])
    decreases |s|
  {
    if s != [] && IsSpace(s[0]) {
      SplitWords(s[1..]);
    } else if s != [] {
      var k := TokenLength(s);
      SplitWords(s[k..]);
      assert Split(s) == [s[..k]] + Split(s[k..]);
    }
  }

  /** Python `sep.join(parts)`. */
  function Join(parts: seq<string>, sep: string): string
  {
    if parts == [] then ""
    else if |parts| == 1 then parts[0]
    else parts[0] + sep + Join(parts[1..], sep)
  }

  /** The list comprehension `[f(x) for x in xs]`. */
  function Map<T, U>(f: T -> U, xs: seq<T>): (r: seq<U>)
    ensures |r| == |xs|
  {
    if xs == [] then [] else Map(f, xs[..|xs| - 1]) + [f(xs[|xs| - 1])]
  }

  /** Element `i` of the comprehension is `f` of element `i`. */
  lemma {:induction false} MapAt<T, U>(f: T -> U, xs: seq<T>)
    ensures forall i :: 0 <= i < |xs| ==> Map(f, xs)[i] == f(xs[i])
  {
    if xs != [] {
      var init := xs[..|xs| - 1];
      MapAt(f, init);
      assert forall i :: 0 <= i < |init| ==> init[i] == xs[i];
    }
  }

  /** The comprehension over one more element appends that element's image. */
  lemma MapStep<T, U>(f: T -> U, xs: seq<T>, i: nat)
    requires i < |xs|
    ensures Map(f, xs[..i + 1]) == Map(f, xs[..i]) + [f(xs[i])]
  {
    assert xs[..i + 1][..i] == xs[..i];
  }

  /** The comprehension over two lists is the two comprehensions, one after the other. */
  lemma {:induction false} MapAppend<T, U>(f: T -> U, a: seq<T>, b: seq<T>)
    ensures Map(f, a + b) == Map(f, a) + Map(f, b)
  {
    if b == [] {
      assert a + b == a;
    } else {
      var init := b[..|b| - 1];
      MapAppend(f, a, init);
      assert (a + b)[..|a + b| - 1] == a + init && (a + b)[|a + b| - 1] == b[|b| - 1];
    }
  }

  /** The list comprehension `[x for x in xs if keep(x)]`. */
  function Filter<T(==)>(keep: T -> bool, xs: seq<T>): (r: seq<T>)
    ensures |r| <= |xs|
    ensures forall j :: 0 <= j < |r| ==> keep(r[j]) && r[j] in xs
    ensures r == [] <==> forall i :: 0 <= i < |xs| ==> !keep(xs[i])
  {
    if xs == [] then []
    else
      var init, last := xs[..|xs| - 1], xs[|xs| - 1];
      assert forall i :: 0 <= i < |init| ==> init[i] == xs[i];
      Filter(keep, init) + if keep(last) then [last] else []
  }

  /** The positions in `xs` of the elements the comprehension keeps. */
  function Positions<T>(keep: T -> bool, xs: seq<T>): seq<nat>
  {
    if xs == [] then []
    else Positions(keep, xs[..|xs| - 1]) + if keep(xs[|xs| - 1]) then [|xs| - 1] else []
  }

  /**
   * `kept` is `xs` read at the strictly increasing positions `at`, and those positions
   * are exactly the ones whose element satisfies `keep`.
   */
  ghost predicate Selects<T>(xs: seq<T>, keep: T -> bool, kept: seq<T>, at: seq<nat>)
  {
    && |at| == |kept|
    && (forall j :: 0 <= j < |at| ==> at[j] < |xs| && kept[j] == xs[at[j]])
    && (forall j, k :: 0 <= j < k < |at| ==> at[j] < at[k])
    && (forall i :: 0 <= i < |xs| ==> (keep(xs[i]) <==> i in at))
  }

  /** The comprehension keeps every element satisfying `keep`, and only those, in order. */
  lemma {:induction false} FilterSelects<T>(keep: T -> bool, xs: seq<T>)
    ensures Selects(xs, keep, Filter(keep, xs), Positions(keep, xs))
  {
    if xs != [] {
      FilterSelects(keep, xs[..|xs| - 1]);
      FilterSelectsStep(keep, xs);
    }
  }

  /** One more element either extends the selection by its own position or leaves it alone. */
  lemma {:induction false} FilterSelectsStep<T>(keep: T -> bool, xs: seq<T>)
    requires xs != []
    requires Selects(xs[..|xs| - 1], keep, Filter(keep, xs[..|xs| - 1]), Positions(keep, xs[..|xs| - 1]))
    ensures Selects(xs, keep, Filter(keep, xs), Positions(keep, xs))
  {
    FilterSnoc(keep, xs);
    if keep(xs[|xs| - 1]) {
      SelectsExtend(xs, keep, Filter(keep, xs[..|xs| - 1]), Positions(keep, xs[..|xs| - 1]));
    } else {
      SelectsSkip(xs, keep, Filter(keep, xs[..|xs| - 1]), Positions(keep, xs[..|xs| - 1]));
    }
  }

  /** The comprehension and its positions over one more element. */
  lemma {:induction false} FilterSnoc<T>(keep: T -> bool, xs: seq<T>)
    requires xs != []
    ensures var n := |xs| - 1;
      && Filter(keep, xs) == Filter(keep, xs[..n]) + (if keep(xs[n]) then [xs[n]] else [])
      && Positions(keep, xs) == Positions(keep, xs[..n]) + (if keep(xs[n]) then [n] else [])
  {
  }

  /** A last element that satisfies `keep` joins the selection at its own position. */
  lemma {:induction false} SelectsExtend<T>(xs: seq<T>, keep: T -> bool, kept: seq<T>, at: seq<nat>)
    requires xs != [] && keep(xs[|xs| - 1])
    requires Selects(xs[..|xs| - 1], keep, kept, at)
    ensures Selects(xs, keep, kept + [xs[|xs| - 1]], at + [|xs| - 1])
  {
    var n := |xs| - 1;
    assert forall i :: 0 <= i < n ==> xs[..n][i] == xs[i];
    var at', kept' := at + [n], kept + [xs[n]];
    assert forall j :: 0 <= j < |at| ==> at'[j] == at[j] && kept'[j] == kept[j];
    assert forall i :: 0 <= i < n ==> (i in at' <==> i in at);
  }

  /** A last element that fails `keep` leaves the selection as it is. */
  lemma {:induction false} SelectsSkip<T>(xs: seq<T>, keep: T -> bool, kept: seq<T>, at: seq<nat>)
    requires xs != [] && !keep(xs[|xs| - 1])
    requires Selects(xs[..|xs| - 1], keep, kept, at)
    ensures Selects(xs, keep, kept, at)
  {
    var n := |xs| - 1;
    assert forall i :: 0 <= i < n ==> xs[..n][i] == xs[i];
  }

  /** Python `s.split(c)` for a one-character separator. */
  function SplitOn(s: string, c: char): (parts: seq<string>)
    ensures |parts| >= 1
    ensures forall i :: 0 <= i < |parts| ==> c !in parts[i]
  {
    if s == [] then [""]
    else
      var rest := SplitOn(s[1..], c);
      if s[0] == c then [""] + rest else [[s[0]] + rest[0]] + rest[1..]
  }

  /** Python's normalisation of a slice bound `i` against a sequence of length `n`. */
  function SliceBound(i: int, n: nat): (r: nat)
    ensures r <= n
    ensures 0 <= i <= n ==> r == i
  {
    if i < 0 then (if n + i < 0 then 0 else n + i) else if i > n then n else i
  }

  /** Python `s[lo:hi]` with its clamping and negative bounds. */
  function PySlice<T>(s: seq<T>, lo: int, hi: int): (r: seq<T>)
    ensures 0 <= lo <= hi <= |s| ==> r == s[lo..hi]
    ensures 0 <= lo && |s| <= hi ==> r == s[if lo <= |s| then lo else |s|..]
  {
    var a, b := SliceBound(lo, |s|), SliceBound(hi, |s|);
    if a < b then s[a..b] else []
  }

  /** The message of the `IndexError` a list index out of range raises. */
  const IndexOutOfRange := "list index out of range"

  /** Python `s[i]`: negative indices count from the end; out of range is an IndexError (None). */
  function PyIndex<T>(s: seq<T>, i: int): (r: Option<T>)
    ensures r.Some? <==> -|s| <= i < |s|
    ensures 0 <= i < |s| ==> r == Some(s[i])
    ensures -|s| <= i < 0 ==> r == Some(s[|s| + i])
  {
    if 0 <= i < |s| then Some(s[i]) else if -|s| <= i < 0 then Some(s[|s| + i]) else None
  }

  function DigitChar(d: nat): char
    requires d < 10
  {
    ('0' as int + d) as char
  }

  /** Python `str(n)` for a non-negative integer. */
  function NatToString(n: nat): (s: string)
    ensures s != [] && AllDigits(s)
  {
    if n < 10 then [DigitChar(n)] else NatToString(n / 10) + [DigitChar(n % 10)]
  }

  /** Python `str(i)` for any integer: a minus sign before the digits of a negative one. */
  function IntToString(i: int): (s: string)
    ensures s != [] && (s[0] == '-' <==> i < 0)
  {
    if i < 0 then "-" + NatToString(-i) else NatToString(i)
  }

  /** Different integers print differently. */
  lemma IntToStringInjective(i: int, j: int)
    requires IntToString(i) == IntToString(j)
    ensures i == j
  {
    if i < 0 {
      assert IntToString(i)[1..] == NatToString(-i);
      assert IntToString(j)[1..] == NatToString(-j);
      NatToStringInjective(-i, -j);
    } else {
      NatToStringInjective(i, j);
    }
  }

  /** Different natural numbers print differently. */
  lemma {:induction false} NatToStringInjective(m: nat, n: nat)
    requires NatToString(m) == NatToString(n)
    ensures m == n
  {
    var s := NatToString(m);
    if m >= 10 && n >= 10 {
      var a, b := NatToString(m / 10), NatToString(n / 10);
      assert s == a + [DigitChar(m % 10)] == b + [DigitChar(n % 10)];
      assert a == s[..|s| - 1] == b;
      NatToStringInjective(m / 10, n / 10);
    }
  }

  // ---------------------------------------------------------------------------
  // Lemmas about the built-ins
  // ---------------------------------------------------------------------------

  /** Splitting words joined by single spaces gives the words back. */
  lemma {:induction false} SplitJoin(words: seq<string>)
    requires forall i :: 0 <= i < |words| ==> words[i] != [] && NoSpace(words[i])
    ensures Split(Join(words, " ")) == words
  {
    if words == [] {
    } else if |words| == 1 {
      SplitToken(words[0], "");
      assert words[0] + "" == words[0];
    } else {
      var w, rest := words[0], Join(words[1..], " ");
      var tail := " " + rest;
      assert Join(words, " ") == w + tail;
      SplitToken(w, tail);
      assert tail[1..] == rest;
      assert Split(tail) == Split(rest);
      SplitJoin(words[1..]);
      assert [w] + words[1..] == words;
    }
  }

  /** `s.strip().split() == s.split()`. */
  lemma {:induction false} SplitStrip(s: string)
    ensures Split(Strip(s)) == Split(s)
    decreases |s|
  {
    if s != [] && IsSpace(s[0]) {
      SplitStrip(s[1..]);
      SplitStripHead(s);
    } else if s != [] && IsSpace(s[|s| - 1]) {
      SplitStrip(s[..|s| - 1]);
      SplitStripTail(s);
    } else {
      assert Strip(s) == s;
    }
  }

  lemma SplitStripHead(s: string)
    requires s != [] && IsSpace(s[0]) && Split(Strip(s[1..])) == Split(s[1..])
    ensures Split(Strip(s)) == Split(s)
  {
    assert Strip(s) == Strip(s[1..]);
    assert Split(s) == Split(s[1..]);
  }

  lemma SplitStripTail(s: string)
    requires s != [] && !IsSpace(s[0]) && IsSpace(s[|s| - 1])
    requires Split(Strip(s[..|s| - 1])) == Split(s[..|s| - 1])
    ensures Split(Strip(s)) == Split(s)
  {
    var t := s[..|s| - 1];
    assert Strip(s) == Strip(t);
    SplitTrailingSpace(t, s[|s| - 1]);
    SnocLast(s);
  }

  /** A non-empty sequence is its front followed by its last element. */
  lemma SnocLast<T>(s: seq<T>)
    requires s != []
    ensures s[..|s| - 1] + [s[|s| - 1]] == s
  {
  }

  lemma WholeSlice<T>(s: seq<T>)
    ensures s[0..|s|] == s
  {
  }

  /** Dropping the head of a concatenation drops the head of its first part. */
  lemma TailConcat<T>(a: seq<T>, b: seq<T>)
    requires a != []
    ensures (a + b)[1..] == a[1..] + b
  {
  }

  /** A trailing whitespace character does not change `split()`. */
  lemma {:induction false} SplitTrailingSpace(t: string, c: char)
    requires IsSpace(c)
    ensures Split(t + [c]) == Split(t)
    decreases |t|
  {
    var s := t + [c];
    if t == [] {
      assert s[1..] == [];
    } else if IsSpace(t[0]) {
      assert s[1..] == t[1..] + [c];
      SplitTrailingSpace(t[1..], c);
    } else {
      TokenAppendSpace(t, c);
      var k := TokenLength(t);
      assert s[..k] == t[..k];
      assert s[k..] == t[k..] + [c];
      SplitTrailingSpace(t[k..], c);
    }
  }

  lemma {:induction false} TokenAppendSpace(t: string, c: char)
    requires IsSpace(c)
    ensures TokenLength(t + [c]) == TokenLength(t)
  {
    if t != [] && !IsSpace(t[0]) {
      TailConcat(t, [c]);
      TokenAppendSpace(t[1..], c);
    }
  }

  /** A word followed by text that starts with whitespace (or nothing) is split off whole. */
  lemma SplitToken(w: string, tail: string)
    requires w != [] && NoSpace(w)
    requires tail == [] || IsSpace(tail[0])
    ensures Split(w + tail) == [w] + Split(tail)
  {
    var s := w + tail;
    TokenOf(w, tail);
    assert s[..|w|] == w && s[|w|..] == tail;
  }

  lemma {:induction false} TokenOf(w: string, tail: string)
    requires NoSpace(w)
    requires tail == [] || IsSpace(tail[0])
    ensures TokenLength(w + tail) == |w|
  {
    if w != [] {
      TailConcat(w, tail);
      TokenOf(w[1..], tail);
    }
  }

  /** Joining two non-empty lists is joining each and putting the separator between. */
  lemma {:induction false} JoinAppend(a: seq<string>, b: seq<string>, sep: string)
    requires a != [] && b != []
    ensures Join(a + b, sep) == Join(a, sep) + sep + Join(b, sep)
  {
    var ab := a + b;
    assert ab[0] == a[0] && |ab| > 1;
    if |a| == 1 {
      assert ab[1..] == b;
    } else {
      assert ab[1..] == a[1..] + b;
      JoinAppend(a[1..], b, sep);
      var j, jb := Join(a[1..], sep), Join(b, sep);
      assert Join(ab, sep) == a[0] + sep + (j + sep + jb);
      assert a[0] + sep + (j + sep + jb) == (a[0] + sep + j) + sep + jb;
    }
  }

  /** A join of non-empty parts is empty only when there are no parts. */
  lemma {:induction false} JoinEmpty(parts: seq<string>, sep: string)
    requires forall i :: 0 <= i < |parts| ==> parts[i] != []
    ensures Join(parts, sep) == [] <==> parts == []
  {
    if |parts| > 1 {
      JoinEmpty(parts[1..], sep);
    }
  }

  /** Every character of a join comes from a part or from the separator. */
  lemma {:induction false} JoinChars(parts: seq<string>, sep: string, P: char -> bool)
    requires forall i, j :: 0 <= i < |parts| && 0 <= j < |parts[i]| ==> P(parts[i][j])
    requires forall j :: 0 <= j < |sep| ==> P(sep[j])
    ensures forall j :: 0 <= j < |Join(parts, sep)| ==> P(Join(parts, sep)[j])
  {
    if |parts| > 1 {
      JoinChars(parts[1..], sep, P);
      var r := Join(parts[1..], sep);
      assert Join(parts, sep) == parts[0] + sep + r;
      forall j | 0 <= j < |parts[0] + sep + r| ensures P((parts[0] + sep + r)[j]) {
        if j < |parts[0]| {
        } else if j < |parts[0]| + |sep| {
          assert (parts[0] + sep + r)[j] == sep[j - |parts[0]|];
        } else {
          assert (parts[0] + sep + r)[j] == r[j - |parts[0]| - |sep|];
        }
      }
    } else if |parts| == 1 {
      assert Join(parts, sep) == parts[0];
    }
  }

  /** Python `sep.join(s.split(sep)) == s` for a one-character separator. */
  lemma {:induction false} JoinSplitOn(s: string, c: char)
    ensures Join(SplitOn(s, c), [c]) == s
  {
    if s != [] {
      var rest := SplitOn(s[1..], c);
      JoinSplitOn(s[1..], c);
      if s[0] == c {
        assert SplitOn(s, c) == [""] + rest;
        assert ([""] + rest)[1..] == rest;
      } else {
        var parts := [[s[0]] + rest[0]] + rest[1..];
        assert SplitOn(s, c) == parts;
        if |rest| == 1 {
          assert rest == [rest[0]];
        } else {
          assert parts[1..] == rest[1..];
          assert Join(rest, [c]) == rest[0] + [c] + Join(rest[1..], [c]);
        }
      }
    }
  }

  /** The number of occurrences of `c` in `s`. */
  function CountChar(s: string, c: char): nat {
    if s == [] then 0 else (if s[0] == c then 1 else 0) + CountChar(s[1..], c)
  }

  /**
   * Where `c.join(s.split(c)[:n])` stops: just before the `n`-th occurrence of `c`, or at
   * the end of `s` when `c` occurs fewer than `n` times.
   */
  function CutAt(s: string, c: char, n: nat): (p: nat)
    requires n >= 1
    ensures p <= |s|
    ensures p < |s| ==> s[p] == c && CountChar(s[..p], c) == n - 1
    ensures p == |s| ==> CountChar(s, c) < n
  {
    if s == [] then 0
    else if s[0] == c then
      if n == 1 then 0
      else
        var q := CutAt(s[1..], c, n - 1);
        assert s[..1 + q][1..] == s[1..][..q];
        1 + q
    else
      var q := CutAt(s[1..], c, n);
      assert s[..1 + q][1..] == s[1..][..q];
      1 + q
  }

  /** The first `n` pieces of `s.split(c)`, rejoined with `c`, are the text before the `n`-th `c`. */
  lemma {:induction false} FirstPieces(s: string, c: char, n: nat)
    requires n >= 1
    ensures Join(PySlice(SplitOn(s, c), 0, n), [c]) == s[..CutAt(s, c, n)]
  {
    if s == [] {
      assert PySlice(SplitOn(s, c), 0, n) == [""];
    } else if s[0] == c && n == 1 {
      assert PySlice(SplitOn(s, c), 0, n) == [""];
    } else if s[0] == c {
      FirstPieces(s[1..], c, n - 1);
      FirstPiecesSeparator(s, c, n);
    } else {
      FirstPieces(s[1..], c, n);
      FirstPiecesOther(s, c, n);
    }
  }

  lemma FirstPiecesSeparator(s: string, c: char, n: nat)
    requires s != [] && s[0] == c && n >= 2
    requires Join(PySlice(SplitOn(s[1..], c), 0, n - 1), [c]) == s[1..][..CutAt(s[1..], c, n - 1)]
    ensures Join(PySlice(SplitOn(s, c), 0, n), [c]) == s[..CutAt(s, c, n)]
  {
    var rest := SplitOn(s[1..], c);
    var take := PySlice(rest, 0, n - 1);
    assert SplitOn(s, c) == [""] + rest;
    assert PySlice(SplitOn(s, c), 0, n) == [""] + take;
    assert ([""] + take)[1..] == take;
    var q := CutAt(s[1..], c, n - 1);
    assert s[..1 + q] == [c] + s[1..][..q];
  }

  lemma FirstPiecesOther(s: string, c: char, n: nat)
    requires s != [] && s[0] != c && n >= 1
    requires Join(PySlice(SplitOn(s[1..], c), 0, n), [c]) == s[1..][..CutAt(s[1..], c, n)]
    ensures Join(PySlice(SplitOn(s, c), 0, n), [c]) == s[..CutAt(s, c, n)]
  {
    var rest := SplitOn(s[1..], c);
    var take := PySlice(rest, 0, n);
    assert SplitOn(s, c) == [[s[0]] + rest[0]] + rest[1..];
    TakeNewHead(rest, [s[0]] + rest[0], n);
    JoinConsHead(s[0], take, [c]);
    ConsPrefix(s, CutAt(s[1..], c, n));
  }

  /** Replacing the head of a list replaces the head of each of its non-empty prefixes. */
  lemma TakeNewHead<T>(xs: seq<T>, x: T, n: int)
    requires xs != [] && n >= 1
    ensures PySlice(xs, 0, n) != [] && PySlice(xs, 0, n)[0] == xs[0]
    ensures PySlice([x] + xs[1..], 0, n) == [x] + PySlice(xs, 0, n)[1..]
  {
    var ys := [x] + xs[1..];
    if n >= |xs| {
      assert PySlice(ys, 0, n) == ys && PySlice(xs, 0, n) == xs;
    } else {
      assert PySlice(ys, 0, n) == ys[..n] && PySlice(xs, 0, n) == xs[..n];
      assert ys[..n] == [x] + xs[..n][1..];
    }
  }

  lemma ConsPrefix<T>(s: seq<T>, q: nat)
    requires s != [] && q <= |s| - 1
    ensures s[..1 + q] == [s[0]] + s[1..][..q]
  {
  }

  /** Putting a character before the first part puts it before the whole join. */
  lemma JoinConsHead(x: char, parts: seq<string>, sep: string)
    requires parts != []
    ensures Join([[x] + parts[0]] + parts[1..], sep) == [x] + Join(parts, sep)
  {
    var q := [[x] + parts[0]] + parts[1..];
    assert q[1..] == parts[1..];
  }
}
