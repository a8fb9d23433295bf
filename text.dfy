/**
 * String helpers with the meaning JavaScript gives them: `includes`, `split`
 * and `join`, `trim`, ASCII `toLowerCase`, decimal digits and `Number` on a
 * digit string. Strings are sequences of UTF-16 code units' characters.
 */
module Text {

  /** `s.includes(t)`. */
  function Contains(s: string, t: string): bool
    decreases |s|
  {
    if |s| < |t| then false
    else s[..|t|] == t || Contains(s[1..], t)
  }

  lemma {:induction false} ContainsAt(s: string, t: string, i: nat)
    requires i + |t| <= |s| && s[i..i + |t|] == t
    ensures Contains(s, t)
    decreases i
  {
    if i > 0 {
      assert s[1..][i - 1..i - 1 + |t|] == s[i..i + |t|];
      ContainsAt(s[1..], t, i - 1);
    }
  }

  /** An occurrence inside a slice is an occurrence in the whole string. */
  lemma ContainsInSlice(s: string, lo: nat, hi: nat, t: string)
    requires lo <= hi <= |s| && Contains(s[lo..hi], t)
    ensures Contains(s, t)
  {
    var i := ContainsWitness(s[lo..hi], t);
    forall j | lo + i <= j < lo + i + |t|
      ensures s[j] == t[j - lo - i]
    {
      assert s[lo..hi][j - lo] == s[j];
    }
    assert s[lo + i..lo + i + |t|] == t;
    ContainsAt(s, t, lo + i);
  }

  /** A string lacking one of `t`'s characters cannot contain `t`. */
  lemma MissingCharAbsent(s: string, t: string, c: char)
    requires c in t && c !in s
    ensures !Contains(s, t)
  {
    if Contains(s, t) {
      var i := ContainsWitness(s, t);
    }
  }

  /** `trim` never creates an occurrence. */
  lemma TrimKeepsAbsent(s: string, t: string)
    requires !Contains(s, t)
    ensures !Contains(Trim(s), t)
  {
    TrimSpec(s);
    if Contains(Trim(s), t) {
      var k :| 0 <= k <= |s| - |Trim(s)| && s[k..k + |Trim(s)|] == Trim(s) && AllSpace(s[..k]) && AllSpace(s[k + |Trim(s)|..]);
      ContainsInSlice(s, k, k + |Trim(s)|, t);
    }
  }

  /** A witness position for every occurrence `Contains` reports. */
  lemma {:induction false} ContainsWitness(s: string, t: string) returns (i: nat)
    requires Contains(s, t)
    ensures i + |t| <= |s| && s[i..i + |t|] == t
    decreases |s|
  {
    if s[..|t|] == t {
      i := 0;
    } else {
      var j := ContainsWitness(s[1..], t);
      assert s[1..][j..j + |t|] == s[j + 1..j + 1 + |t|];
      i := j + 1;
    }
  }

  // ---------------------------------------------------------------- split / join

  /** `s.split(sep)` for a non-empty separator: the pieces between the leftmost non-overlapping occurrences. */
  function SplitOn(s: string, sep: string): (r: seq<string>)
    requires |sep| > 0
    ensures |r| >= 1
    decreases |s|
  {
    if |s| == 0 then [""]
    else if |s| >= |sep| && s[..|sep|] == sep then [""] + SplitOn(s[|sep|..], sep)
    else
      var rest := SplitOn(s[1..], sep);
      [[s[0]] + rest[0]] + rest[1..]
  }

  /** `pieces.join(sep)`. */
  function Join(pieces: seq<string>, sep: string): string
    decreases |pieces|
  {
    if |pieces| == 0 then ""
    else if |pieces| == 1 then pieces[0]
    else pieces[0] + sep + Join(pieces[1..], sep)
  }

  function Last<T>(s: seq<T>): T
    requires |s| > 0
  {
    s[|s| - 1]
  }

  /** Joining the pieces of a split gives back the string. */
  lemma {:induction false} SplitJoin(s: string, sep: string)
    requires |sep| > 0
    ensures Join(SplitOn(s, sep), sep) == s
    decreases |s|
  {
    if |s| == 0 {
    } else if |s| >= |sep| && s[..|sep|] == sep {
      SplitJoin(s[|sep|..], sep);
      var rest := SplitOn(s[|sep|..], sep);
      assert SplitOn(s, sep) == [""] + rest;
      assert ([""] + rest)[1..] == rest;
      assert s == s[..|sep|] + s[|sep|..];
    } else {
      SplitJoin(s[1..], sep);
      JoinExtendHead([s[0]], SplitOn(s[1..], sep), sep);
      assert s == [s[0]] + s[1..];
    }
  }

  /** Prefixing the first piece prefixes the joined string. */
  lemma JoinExtendHead(p: string, pieces: seq<string>, sep: string)
    requires |pieces| >= 1
    ensures Join([p + pieces[0]] + pieces[1..], sep) == p + Join(pieces, sep)
  {
    var r := [p + pieces[0]] + pieces[1..];
    if |pieces| > 1 {
      assert r[1..] == pieces[1..];
    }
  }

  /** No piece of a split contains the separator. */
  lemma {:induction false} SplitPiecesFree(s: string, sep: string)
    requires |sep| > 0
    ensures forall k :: 0 <= k < |SplitOn(s, sep)| ==> !Contains(SplitOn(s, sep)[k], sep)
    decreases |s|
  {
    var r := SplitOn(s, sep);
    if |s| == 0 {
    } else if |s| >= |sep| && s[..|sep|] == sep {
      SplitPiecesFree(s[|sep|..], sep);
      var rest := SplitOn(s[|sep|..], sep);
      assert r == [""] + rest;
      forall k | 0 <= k < |r| ensures !Contains(r[k], sep) {
        if k > 0 { assert r[k] == rest[k - 1]; }
      }
    } else {
      SplitPiecesFree(s[1..], sep);
      var rest := SplitOn(s[1..], sep);
      assert r == [[s[0]] + rest[0]] + rest[1..];
      HeadPieceFree(s, sep);
      forall k | 0 <= k < |r| ensures !Contains(r[k], sep) {
        if k > 0 { assert r[k] == rest[k]; }
      }
    }
  }

  /** The piece built in front of a non-separator character stays free of the separator. */
  lemma HeadPieceFree(s: string, sep: string)
    requires |sep| > 0 && |s| > 0 && !(|s| >= |sep| && s[..|sep|] == sep)
    requires !Contains(SplitOn(s[1..], sep)[0], sep)
    ensures !Contains([s[0]] + SplitOn(s[1..], sep)[0], sep)
  {
    var tail := SplitOn(s[1..], sep)[0];
    HeadPieceIsPrefix(s[1..], sep);
    PrefixConsFree(s, tail, sep);
  }

  lemma PrefixConsFree(s: string, tail: string, sep: string)
    requires |sep| > 0 && |s| > 0 && !(|s| >= |sep| && s[..|sep|] == sep)
    requires |tail| < |s| && s[1..][..|tail|] == tail && !Contains(tail, sep)
    ensures !Contains([s[0]] + tail, sep)
  {
    var head := [s[0]] + tail;
    assert head == s[..|head|];
    assert head[1..] == tail;
  }

  /** The first piece of a split is a prefix of the string. */
  lemma {:induction false} HeadPieceIsPrefix(s: string, sep: string)
    requires |sep| > 0
    ensures |SplitOn(s, sep)[0]| <= |s| && s[..|SplitOn(s, sep)[0]|] == SplitOn(s, sep)[0]
    decreases |s|
  {
    if |s| > 0 && !(|s| >= |sep| && s[..|sep|] == sep) {
      HeadPieceIsPrefix(s[1..], sep);
    }
  }

  /** Splitting on a one-character separator peels off a leading piece free of it. */
  lemma {:induction false} SplitAfterPiece(a: string, sep: string, b: string)
    requires |sep| == 1 && !Contains(a, sep)
    ensures SplitOn(a + sep + b, sep) == [a] + SplitOn(b, sep)
    decreases |a|
  {
    var s := a + sep + b;
    if |a| == 0 {
      assert s == sep + b;
      assert s[..|sep|] == sep && s[|sep|..] == b;
    } else {
      assert s[1..] == a[1..] + sep + b;
      assert !Contains(a[1..], sep);
      SplitAfterPiece(a[1..], sep, b);
      assert [s[0]] + a[1..] == a;
    }
  }


  // ---------------------------------------------------------------- trim

  /** The characters JavaScript's `trim` removes: its WhiteSpace and LineTerminator sets. */
  predicate IsSpace(c: char) {
    c == ' ' || c == '\t' || c == '\n' || c == '\r' || c == '\U{000B}' || c == '\U{000C}'
    || c == '\U{00A0}' || c == '\U{1680}' || ('\U{2000}' <= c <= '\U{200A}')
    || c == '\U{2028}' || c == '\U{2029}' || c == '\U{202F}' || c == '\U{205F}'
    || c == '\U{3000}' || c == '\U{FEFF}'
  }

  predicate AllSpace(s: string) {
    forall i :: 0 <= i < |s| ==> IsSpace(s[i])
  }

  /** Neither end of `s` is white space. */
  predicate IsTrimmed(s: string) {
    |s| == 0 || (!IsSpace(s[0]) && !IsSpace(s[|s| - 1]))
  }

  function TrimStart(s: string): string
    decreases |s|
  {
    if |s| > 0 && IsSpace(s[0]) then TrimStart(s[1..]) else s
  }

  function TrimEnd(s: string): string
    decreases |s|
  {
    if |s| > 0 && IsSpace(s[|s| - 1]) then TrimEnd(s[..|s| - 1]) else s
  }

  /** `s.trim()`. */
  function Trim(s: string): string {
    TrimEnd(TrimStart(s))
  }

  lemma {:induction false} TrimStartSplits(s: string)
    ensures var t := TrimStart(s);
      |t| <= |s| && s[|s| - |t|..] == t && AllSpace(s[..|s| - |t|]) && (|t| == 0 || !IsSpace(t[0]))
    decreases |s|
  {
    if |s| > 0 && IsSpace(s[0]) {
      TrimStartSplits(s[1..]);
      var t := TrimStart(s[1..]);
      assert s[1..][..|s| - 1 - |t|] == s[1..|s| - |t|];
    }
  }

  lemma {:induction false} TrimEndSplits(s: string)
    ensures var t := TrimEnd(s);
      |t| <= |s| && s[..|t|] == t && AllSpace(s[|t|..]) && (|t| == 0 || !IsSpace(t[|t| - 1]))
    decreases |s|
  {
    if |s| > 0 && IsSpace(s[|s| - 1]) {
      TrimEndSplits(s[..|s| - 1]);
      var t := TrimEnd(s[..|s| - 1]);
      assert s[..|s| - 1][|t|..] == s[|t|..|s| - 1];
    }
  }

  lemma {:induction false} TrimEndKeepsStart(s: string)
    requires |s| > 0 && !IsSpace(s[0])
    ensures |TrimEnd(s)| > 0 && TrimEnd(s)[0] == s[0]
    decreases |s|
  {
    if IsSpace(s[|s| - 1]) {
      TrimEndKeepsStart(s[..|s| - 1]);
    }
  }

  /** `trim` removes white space from both ends and only from the ends: `s` is the result with white space around it. */
  lemma TrimSpec(s: string)
    ensures var t := Trim(s);
      IsTrimmed(t) && |t| <= |s|
      && exists k :: 0 <= k <= |s| - |t| && s[k..k + |t|] == t && AllSpace(s[..k]) && AllSpace(s[k + |t|..])
  {
    var a := TrimStart(s);
    var t := TrimEnd(a);
    TrimStartSplits(s);
    TrimEndSplits(a);
    if |a| > 0 { TrimEndKeepsStart(a); }
    var k := |s| - |a|;
    assert s[k..k + |t|] == a[..|t|];
    assert s[k + |t|..] == a[|t|..];
  }

  lemma {:induction false} TrimmedIsFixed(s: string)
    requires IsTrimmed(s)
    ensures Trim(s) == s
  {
  }

  // ---------------------------------------------------------------- case, digits, numbers

  /** `toLowerCase` on the ASCII letters (the only letters the planner's keyword tests compare against). */
  function ToLowerAscii(s: string): (r: string)
    ensures |r| == |s|
    ensures forall i :: 0 <= i < |s| ==> r[i] == if 'A' <= s[i] <= 'Z' then (s[i] as int + 32) as char else s[i]
  {
    seq(|s|, i requires 0 <= i < |s| => if 'A' <= s[i] <= 'Z' then (s[i] as int + 32) as char else s[i])
  }

  predicate IsDigit(c: char) {
    '0' <= c <= '9'
  }

  predicate AllDigits(s: string) {
    forall i :: 0 <= i < |s| ==> IsDigit(s[i])
  }

  function DigitValue(c: char): (r: nat)
    requires IsDigit(c)
    ensures r < 10
  {
    c as int - '0' as int
  }

  function DigitChar(d: nat): (c: char)
    requires d < 10
    ensures IsDigit(c) && DigitValue(c) == d
  {
    ('0' as int + d) as char
  }

  /** `String(n)` for a natural number: its decimal digits, no leading zero. */
  function NatToString(n: nat): (s: string)
    ensures |s| >= 1 && AllDigits(s)
    ensures |s| == 1 <==> n < 10
  {
    if n < 10 then [DigitChar(n)] else NatToString(n / 10) + [DigitChar(n % 10)]
  }

  /** `String(n)` for an integer. */
  function IntToString(n: int): string {
    if n < 0 then "-" + NatToString(-n) else NatToString(n)
  }

  /** `Number(s)` on a string of decimal digits (the empty string reads as 0). */
  function ParseNat(s: string): nat
    requires AllDigits(s)
  {
    if |s| == 0 then 0 else 10 * ParseNat(s[..|s| - 1]) + DigitValue(s[|s| - 1])
  }

  lemma {:induction false} ParseNatToString(n: nat)
    ensures ParseNat(NatToString(n)) == n
  {
    if n >= 10 {
      var s := NatToString(n);
      assert s[..|s| - 1] == NatToString(n / 10);
      ParseNatToString(n / 10);
    }
  }

  lemma {:induction false} ParseNatLeadingZero(s: string)
    requires AllDigits(s)
    ensures AllDigits("0" + s) && ParseNat("0" + s) == ParseNat(s)
    decreases |s|
  {
    if |s| > 0 {
      assert ("0" + s)[..|s|] == "0" + s[..|s| - 1];
      ParseNatLeadingZero(s[..|s| - 1]);
    }
  }

  /** `String(n).padStart(2, '0')`. */
  function Pad2(n: nat): (s: string)
    ensures AllDigits(s) && |s| >= 2
  {
    var t := NatToString(n);
    if |t| < 2 then "0" + t else t
  }

  lemma ParsePad2(n: nat)
    ensures ParseNat(Pad2(n)) == n
  {
    ParseNatToString(n);
    ParseNatLeadingZero(NatToString(n));
  }

  lemma DigitsHaveNo(s: string, sep: string)
    requires AllDigits(s) && |sep| == 1 && !IsDigit(sep[0])
    ensures !Contains(s, sep)
  {
    if Contains(s, sep) {
      var i := ContainsWitness(s, sep);
    }
  }

  /** A string free of the separator splits into itself alone. */
  lemma {:induction false} SplitSingle(s: string, sep: string)
    requires |sep| > 0 && !Contains(s, sep)
    ensures SplitOn(s, sep) == [s]
    decreases |s|
  {
    if |s| > 0 {
      assert !Contains(s[1..], sep);
      assert !(|s| >= |sep| && s[..|sep|] == sep);
      SplitSingle(s[1..], sep);
      assert [s[0]] + s[1..] == s;
    }
  }
}
