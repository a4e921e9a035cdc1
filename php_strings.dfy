/** The PHP string functions the client relies on: `strpos`, `explode`,
    `strtolower`/`strtoupper` (ASCII only: locale-independent since PHP
    8.2, and ASCII under the default "C" locale before it), `trim` and
    the decimal form of integers used by string interpolation. */
module PhpStrings {
  import opened PhpValues

  /** `pat` occurs in `s` starting at index `i`. */
  predicate OccursAt(s: string, pat: string, i: nat) {
    i + |pat| <= |s| && s[i..i + |pat|] == pat
  }

  lemma OccursAtTail(s: string, pat: string, i: nat)
    requires |s| > 0
    ensures OccursAt(s[1..], pat, i) <==> OccursAt(s, pat, i + 1)
  {
    if i + 1 + |pat| <= |s| {
      assert s[1..][i..i + |pat|] == s[i + 1..i + 1 + |pat|];
    }
  }

  /** `strpos($s, $pat)`: the index of the first occurrence, `None` for `false`. */
  function IndexOf(s: string, pat: string): (r: Option<nat>)
    ensures r.Some? ==> r.value + |pat| <= |s|
    decreases |s|
  {
    if |pat| > |s| then None
    else if s[..|pat|] == pat then Some(0)
    else
      match IndexOf(s[1..], pat)
      case Some(i) => Some(i + 1)
      case None => None
  }

  /** `strpos` finds the first occurrence, and `false` means there is none. */
  lemma {:induction false} IndexOfSpec(s: string, pat: string)
    ensures IndexOf(s, pat).Some? ==>
      OccursAt(s, pat, IndexOf(s, pat).value) && forall j: nat :: j < IndexOf(s, pat).value ==> !OccursAt(s, pat, j)
    ensures IndexOf(s, pat).None? ==> forall j: nat :: !OccursAt(s, pat, j)
    decreases |s|
  {
    if |pat| <= |s| && s[..|pat|] != pat {
      IndexOfSpec(s[1..], pat);
      assert !OccursAt(s, pat, 0);
      forall j: nat | j >= 1 ensures OccursAt(s, pat, j) <==> OccursAt(s[1..], pat, j - 1) {
        OccursAtTail(s, pat, j - 1);
      }
    }
  }

  /** `strpos($s, $pat) !== false`. */
  predicate Contains(s: string, pat: string) {
    IndexOf(s, pat).Some?
  }

  /** `implode($sep, $pieces)`. */
  function Join(pieces: seq<string>, sep: string): string {
    if pieces == [] then ""
    else if |pieces| == 1 then pieces[0]
    else pieces[0] + sep + Join(pieces[1..], sep)
  }

  /** Text before the first occurrence of `pat` does not contain `pat`. */
  lemma PrefixBeforeFirst(s: string, pat: string)
    requires |pat| > 0 && IndexOf(s, pat).Some?
    ensures !Contains(s[..IndexOf(s, pat).value], pat)
  {
    var i := IndexOf(s, pat).value;
    IndexOfSpec(s, pat);
    IndexOfSpec(s[..i], pat);
    if Contains(s[..i], pat) {
      var j := IndexOf(s[..i], pat).value;
      assert OccursAt(s[..i], pat, j);
      assert j + |pat| <= i;
      assert s[..i][j..j + |pat|] == s[j..j + |pat|];
      assert OccursAt(s, pat, j);
    }
  }

  /** `explode($sep, $s)`: the pieces between the occurrences of `sep`,
      scanned left to right. */
  function Explode(s: string, sep: string): (r: seq<string>)
    requires |sep| > 0
    ensures |r| >= 1
    decreases |s|
  {
    match IndexOf(s, sep)
    case None => [s]
    case Some(i) => [s[..i]] + Explode(s[i + |sep|..], sep)
  }

  /** Gluing the pieces of `explode` back with the separator gives the
      original string. */
  lemma {:induction false} ExplodeJoin(s: string, sep: string)
    requires |sep| > 0
    ensures Join(Explode(s, sep), sep) == s
    decreases |s|
  {
    if IndexOf(s, sep).Some? {
      var i := IndexOf(s, sep).value;
      var rest := s[i + |sep|..];
      ExplodeJoin(rest, sep);
      IndexOfSpec(s, sep);
      var tail := Explode(rest, sep);
      assert Explode(s, sep) == [s[..i]] + tail;
      assert s == s[..i] + sep + rest;
    }
  }

  /** No piece of `explode` contains the separator. */
  lemma {:induction false} ExplodePieces(s: string, sep: string)
    requires |sep| > 0
    ensures forall k :: 0 <= k < |Explode(s, sep)| ==> !Contains(Explode(s, sep)[k], sep)
    decreases |s|
  {
    if IndexOf(s, sep).Some? {
      var i := IndexOf(s, sep).value;
      var rest := s[i + |sep|..];
      ExplodePieces(rest, sep);
      PrefixBeforeFirst(s, sep);
      var r := Explode(s, sep);
      var tail := Explode(rest, sep);
      assert r == [s[..i]] + tail;
      forall k | 0 <= k < |r| ensures !Contains(r[k], sep) {
        if k > 0 {
          assert r[k] == tail[k - 1];
        }
      }
    } else {
      IndexOfSpec(s, sep);
    }
  }

  /** `explode($sep, $s, 2)`: the text before the first `sep` and, when
      there is one, everything after it (`None` stands for the missing
      second element). */
  function SplitOnce(s: string, sep: string): (r: (string, Option<string>))
    requires |sep| > 0
  {
    match IndexOf(s, sep)
    case None => (s, None)
    case Some(i) => (s[..i], Some(s[i + |sep|..]))
  }

  /** The name part never contains the separator; without a separator it
      is the whole string, and otherwise name, separator and value glue
      back to the string, so later separators stay in the value. */
  lemma SplitOnceSpec(s: string, sep: string)
    requires |sep| > 0
    ensures !Contains(SplitOnce(s, sep).0, sep)
    ensures SplitOnce(s, sep).1.None? ==> SplitOnce(s, sep).0 == s
    ensures SplitOnce(s, sep).1.Some? ==> s == SplitOnce(s, sep).0 + sep + SplitOnce(s, sep).1.value
  {
    if IndexOf(s, sep).Some? {
      PrefixBeforeFirst(s, sep);
      var i := IndexOf(s, sep).value;
      IndexOfSpec(s, sep);
      assert s == s[..i] + sep + s[i + |sep|..];
    } else {
      IndexOfSpec(s, sep);
    }
  }

  /** Splitting `a + ": " + b` at its first ": " gives back `a` and `b`
      when `a` holds no ": " (a ": " cannot straddle the end of `a`,
      because the character after `a` is ':'). */
  lemma SplitOnceJoined(a: string, b: string)
    requires !Contains(a, ": ")
    ensures SplitOnce(a + ": " + b, ": ") == (a, Some(b))
  {
    var s := a + ": " + b;
    IndexOfSpec(a, ": ");
    IndexOfSpec(s, ": ");
    assert OccursAt(s, ": ", |a|);
    forall j: nat | j < |a| ensures !OccursAt(s, ": ", j) {
      if j + 2 <= |a| {
        assert s[j..j + 2] == a[j..j + 2];
        assert !OccursAt(a, ": ", j);
      } else {
        assert s[j + 1] == ':';
        assert s[j..j + 2][1] == s[j + 1];
      }
    }
    var i := IndexOf(s, ": ").value;
    assert i == |a|;
    assert s[..i] == a && s[i + 2..] == b;
  }

  /** Splitting `a + [c] + b` at its first `c` gives back `a` and `b` when
      `a` holds no `c`. */
  lemma SplitAtFirstChar(a: string, c: char, b: string)
    requires !Contains(a, [c])
    ensures SplitOnce(a + [c] + b, [c]) == (a, Some(b))
  {
    var s := a + [c] + b;
    IndexOfSpec(a, [c]);
    IndexOfSpec(s, [c]);
    assert OccursAt(s, [c], |a|);
    forall j: nat | j < |a| ensures !OccursAt(s, [c], j) {
      assert s[j..j + 1] == a[j..j + 1];
      assert !OccursAt(a, [c], j);
    }
    var i := IndexOf(s, [c]).value;
    assert i == |a|;
    assert s[..i] == a && s[i + 1..] == b;
  }

  /** A leading character other than the separator stays in the name. */
  lemma SplitOnceCons(c: char, s: string, sep: char)
    requires c != sep
    ensures SplitOnce([c] + s, [sep]) == ([c] + SplitOnce(s, [sep]).0, SplitOnce(s, [sep]).1)
  {
    var t := [c] + s;
    assert t[1..] == s;
    assert t[..1] != [sep];
    match IndexOf(s, [sep])
    case None =>
    case Some(i) =>
      assert t[..i + 1] == [c] + s[..i];
      assert t[i + 2..] == s[i + 1..];
  }

  predicate IsAsciiUpper(c: char) { 'A' <= c <= 'Z' }
  predicate IsAsciiLower(c: char) { 'a' <= c <= 'z' }

  function LowerChar(c: char): char {
    if IsAsciiUpper(c) then (c as int + 32) as char else c
  }

  function UpperChar(c: char): char {
    if IsAsciiLower(c) then (c as int - 32) as char else c
  }

  /** `strtolower`: ASCII letters only. */
  function Lower(s: string): (r: string)
    ensures |r| == |s|
    ensures forall i :: 0 <= i < |s| ==> r[i] == LowerChar(s[i])
  {
    seq(|s|, i requires 0 <= i < |s| => LowerChar(s[i]))
  }

  /** `strtoupper`: ASCII letters only. */
  function Upper(s: string): (r: string)
    ensures |r| == |s|
    ensures forall i :: 0 <= i < |s| ==> r[i] == UpperChar(s[i])
  {
    seq(|s|, i requires 0 <= i < |s| => UpperChar(s[i]))
  }

  lemma LowerIdempotent(s: string)
    ensures Lower(Lower(s)) == Lower(s)
  {
  }

  /** The characters `trim` strips by default: space, tab, line feed,
      carriage return, NUL and vertical tab. */
  predicate IsTrimChar(c: char) {
    c == ' ' || c == '\t' || c == '\n' || c == '\r' || c as int == 0 || c as int == 11
  }

  /** `ltrim`: the longest suffix of `s` that does not start with a trim character. */
  function TrimStart(s: string): (r: string)
    ensures |r| <= |s| && r == s[|s| - |r|..]
    ensures forall i :: 0 <= i < |s| - |r| ==> IsTrimChar(s[i])
    ensures r != [] ==> !IsTrimChar(r[0])
  {
    if s != [] && IsTrimChar(s[0]) then TrimStart(s[1..]) else s
  }

  /** `rtrim`: the longest prefix of `s` that does not end with a trim character. */
  function TrimEnd(s: string): (r: string)
    ensures |r| <= |s| && r == s[..|r|]
    ensures forall i :: |r| <= i < |s| ==> IsTrimChar(s[i])
    ensures r != [] ==> !IsTrimChar(r[|r| - 1])
  {
    if s != [] && IsTrimChar(s[|s| - 1]) then TrimEnd(s[..|s| - 1]) else s
  }

  /** `trim`. */
  function Trim(s: string): (r: string) {
    TrimEnd(TrimStart(s))
  }

  /** `trim` removes exactly the trim characters at both ends: `s` is
      some trim characters, then the result, then some trim characters,
      and the result neither starts nor ends with one. */
  lemma TrimSpec(s: string)
    ensures exists a, b ::
              && 0 <= a <= b <= |s| && Trim(s) == s[a..b]
              && (forall i :: 0 <= i < a ==> IsTrimChar(s[i]))
              && (forall i :: b <= i < |s| ==> IsTrimChar(s[i]))
    ensures Trim(s) != [] ==> !IsTrimChar(Trim(s)[0]) && !IsTrimChar(Trim(s)[|Trim(s)| - 1])
  {
    var t := TrimStart(s);
    var a := |s| - |t|;
    var b := a + |Trim(s)|;
    assert Trim(s) == s[a..b];
  }

  /** A leading space makes no difference to `trim`. */
  lemma TrimLeadingSpace(s: string)
    ensures Trim(" " + s) == Trim(s)
  {
    assert (" " + s)[1..] == s;
  }

  predicate IsDigit(c: char) { '0' <= c <= '9' }

  predicate AllDigits(s: string) {
    forall i :: 0 <= i < |s| ==> IsDigit(s[i])
  }

  function DigitChar(d: nat): char
    requires d < 10
  {
    (48 + d) as char
  }

  /** The decimal form of a natural number, as `"{$n}"` writes it. */
  function NatToDecimal(n: nat): (r: string)
    ensures |r| >= 1 && AllDigits(r)
    ensures |r| > 1 ==> r[0] != '0'
    decreases n
  {
    if n < 10 then [DigitChar(n)] else NatToDecimal(n / 10) + [DigitChar(n % 10)]
  }

  /** The decimal form of an integer, with a leading `-` when negative. */
  function IntToDecimal(i: int): string {
    if i < 0 then "-" + NatToDecimal(-i) else NatToDecimal(i)
  }

  /** The number a string of decimal digits denotes. */
  function DecimalValue(s: string): nat
    requires AllDigits(s)
  {
    if s == [] then 0 else DecimalValue(s[..|s| - 1]) * 10 + (s[|s| - 1] as int - 48)
  }

  /** Reading back the decimal form of `n` gives `n`. */
  lemma {:induction false} DecimalRoundTrip(n: nat)
    ensures DecimalValue(NatToDecimal(n)) == n
    decreases n
  {
    if n >= 10 {
      var r := NatToDecimal(n);
      DecimalRoundTrip(n / 10);
      assert r[..|r| - 1] == NatToDecimal(n / 10);
    }
  }

  /** Distinct numbers have distinct decimal forms. */
  lemma DecimalInjective(m: nat, n: nat)
    requires NatToDecimal(m) == NatToDecimal(n)
    ensures m == n
  {
    DecimalRoundTrip(m);
    DecimalRoundTrip(n);
  }
}
