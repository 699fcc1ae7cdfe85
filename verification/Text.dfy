// The QString and QByteArray operations the modelled code relies on: contains, split,
// replace, trimmed, number and toInt, with the facts about them the codecs need.
module Text {
  import opened Wrappers

  // ---------- searching ----------

  predicate OccursAt(s: string, sub: string, k: nat)
  {
    k + |sub| <= |s| && s[k..k + |sub|] == sub
  }

  predicate Contains(s: string, sub: string)
  {
    exists k | 0 <= k <= |s| :: OccursAt(s, sub, k)
  }

  predicate EndsWith<T(==)>(s: seq<T>, sub: seq<T>)
  {
    |sub| <= |s| && s[|s| - |sub|..] == sub
  }

  // A text that contains the needle has all of its characters.
  lemma ContainedChar(s: string, sub: string, i: nat)
    requires i < |sub|
    ensures Contains(s, sub) ==> sub[i] in s
  {
    if Contains(s, sub) {
      var k :| 0 <= k <= |s| && OccursAt(s, sub, k);
      assert s[k + i] == s[k..k + |sub|][i];
    }
  }

  lemma ContainsPart(a: string, sub: string, b: string)
    ensures Contains(a + sub + b, sub)
  {
    assert OccursAt(a + sub + b, sub, |a|);
  }

  // QString::toLower on ASCII
  function ToLower(s: string): (r: string)
    ensures |r| == |s|
  {
    seq(|s|, i requires 0 <= i < |s| => if 'A' <= s[i] <= 'Z' then s[i] - 'A' + 'a' else s[i])
  }

  // ---------- split and replace ----------

  // QString::split: leftmost matches, not overlapping.
  function Split(s: string, sep: string): (parts: seq<string>)
    requires sep != ""
    ensures |parts| > 0
  {
    if |s| < |sep| then [s]
    else if s[..|sep|] == sep then [""] + Split(s[|sep|..], sep)
    else
      var rest := Split(s[1..], sep);
      [[s[0]] + rest[0]] + rest[1..]
  }

  // QString::replace: leftmost matches, not overlapping, the inserted text is not searched again.
  function Replace(s: string, before: string, after: string): string
    requires before != ""
  {
    if |s| < |before| then s
    else if s[..|before|] == before then after + Replace(s[|before|..], before, after)
    else [s[0]] + Replace(s[1..], before, after)
  }

  // No match of sep starts inside the first n characters of s.
  predicate NoneBefore(s: string, sep: string, n: nat)
  {
    forall k | 0 <= k < n :: !OccursAt(s, sep, k)
  }

  lemma NoneBeforeTail(s: string, sep: string, n: nat)
    requires 0 < n <= |s| && NoneBefore(s, sep, n)
    ensures NoneBefore(s[1..], sep, n - 1)
  {
    forall k | 0 <= k < n - 1 ensures !OccursAt(s[1..], sep, k) {
      if OccursAt(s[1..], sep, k) {
        assert s[1..][k..k + |sep|] == s[k + 1..k + 1 + |sep|];
        assert OccursAt(s, sep, k + 1);
      }
    }
  }

  lemma {:induction false} SplitNone(s: string, sep: string)
    requires sep != "" && !Contains(s, sep)
    ensures Split(s, sep) == [s]
  {
    if |s| < |sep| {
    } else {
      assert !OccursAt(s, sep, 0);
      if Contains(s[1..], sep) {
        var k :| 0 <= k <= |s[1..]| && OccursAt(s[1..], sep, k);
        assert s[1..][k..k + |sep|] == s[k + 1..k + 1 + |sep|];
        assert OccursAt(s, sep, k + 1);
      }
      SplitNone(s[1..], sep);
      assert [s[0]] + s[1..] == s;
    }
  }

  // The first match at position |a| cuts the text there.
  lemma {:induction false} SplitFirst(a: string, sep: string, b: string)
    requires sep != "" && NoneBefore(a + sep + b, sep, |a|)
    ensures Split(a + sep + b, sep) == [a] + Split(b, sep)
    decreases |a|
  {
    var s := a + sep + b;
    if a == "" {
      assert s[..|sep|] == sep && s[|sep|..] == b;
    } else {
      assert !OccursAt(s, sep, 0);
      assert s[1..] == a[1..] + sep + b;
      NoneBeforeTail(s, sep, |a|);
      SplitFirst(a[1..], sep, b);
      assert [s[0]] + a[1..] == a;
    }
  }

  lemma {:induction false} ReplaceNone(s: string, before: string, after: string)
    requires before != "" && !Contains(s, before)
    ensures Replace(s, before, after) == s
  {
    if |s| < |before| {
    } else {
      assert !OccursAt(s, before, 0);
      if Contains(s[1..], before) {
        var k :| 0 <= k <= |s[1..]| && OccursAt(s[1..], before, k);
        assert s[1..][k..k + |before|] == s[k + 1..k + 1 + |before|];
        assert OccursAt(s, before, k + 1);
      }
      ReplaceNone(s[1..], before, after);
      assert [s[0]] + s[1..] == s;
    }
  }

  lemma {:induction false} ReplaceFirst(a: string, before: string, b: string, after: string)
    requires before != "" && NoneBefore(a + before + b, before, |a|)
    ensures Replace(a + before + b, before, after) == a + after + Replace(b, before, after)
    decreases |a|
  {
    var s := a + before + b;
    if a == "" {
      assert s[..|before|] == before && s[|before|..] == b;
      assert a + after == after;
    } else {
      assert !OccursAt(s, before, 0);
      assert s[1..] == a[1..] + before + b;
      NoneBeforeTail(s, before, |a|);
      ReplaceFirst(a[1..], before, b, after);
      assert [s[0]] + (a[1..] + after + Replace(b, before, after)) == a + after + Replace(b, before, after);
    }
  }

  // QString::SkipEmptyParts
  function SkipEmpty(parts: seq<string>): seq<string>
  {
    if parts == [] then []
    else
      var rest := SkipEmpty(parts[1..]);
      if parts[0] == "" then rest else [parts[0]] + rest
  }

  // ---------- trimmed ----------

  predicate IsSpace(c: char)
  {
    c == ' ' || '\t' <= c <= '\r'
  }

  function TrimLeft(s: string): (r: string)
    ensures forall c | c in s && !IsSpace(c) :: c in r
    ensures r != "" ==> !IsSpace(r[0])
    ensures |r| <= |s|
  {
    if s != "" && IsSpace(s[0]) then TrimLeft(s[1..]) else s
  }

  function TrimRight(s: string): (r: string)
    ensures forall c | c in s && !IsSpace(c) :: c in r
    ensures |r| <= |s|
  {
    if s != "" && IsSpace(s[|s| - 1]) then TrimRight(s[..|s| - 1]) else s
  }

  // QString::trimmed keeps every character that is not white space.
  function Trim(s: string): (r: string)
    ensures forall c | c in s && !IsSpace(c) :: c in r
  {
    TrimRight(TrimLeft(s))
  }

  predicate AllSpace(s: string) { forall i | 0 <= i < |s| :: s[i] == ' ' || '\t' <= s[i] <= '\r' }

  // Nothing but white space around t.
  ghost predicate Around(line: string, a: string, t: string, b: string)
  {
    line == a + t + b && AllSpace(a) && AllSpace(b)
  }

  lemma {:induction false} TrimLeftParts(s: string) returns (a: string)
    ensures s == a + TrimLeft(s) && AllSpace(a)
    decreases |s|
  {
    if s != "" && IsSpace(s[0]) {
      var rest := TrimLeftParts(s[1..]);
      a := [s[0]] + rest;
      assert s == [s[0]] + s[1..];
    } else {
      a := "";
      NothingInFront(a, TrimLeft(s));
    }
  }

  lemma {:induction false} TrimRightParts(s: string) returns (b: string)
    ensures s == TrimRight(s) + b && AllSpace(b)
    decreases |s|
  {
    if s != "" && IsSpace(s[|s| - 1]) {
      var rest := TrimRightParts(s[..|s| - 1]);
      b := rest + [s[|s| - 1]];
      assert s == s[..|s| - 1] + [s[|s| - 1]];
    } else {
      b := "";
    }
  }

  lemma {:induction false} TrimLeftOver(a: string, t: string)
    requires AllSpace(a) && (t == "" || !IsSpace(t[0]))
    ensures TrimLeft(a + t) == t
    decreases |a|
  {
    if a == "" {
      assert a + t == t;
    } else {
      assert (a + t)[1..] == a[1..] + t;
      TrimLeftOver(a[1..], t);
    }
  }

  lemma {:induction false} TrimRightOver(t: string, b: string)
    requires AllSpace(b) && (t == "" || !IsSpace(t[|t| - 1]))
    ensures TrimRight(t + b) == t
    decreases |b|
  {
    if b == "" {
      assert t + b == t;
    } else {
      assert (t + b)[..|t + b| - 1] == t + b[..|b| - 1];
      TrimRightOver(t, b[..|b| - 1]);
    }
  }

  lemma TrimAround(a: string, t: string, b: string)
    requires AllSpace(a) && AllSpace(b) && (t == "" || (!IsSpace(t[0]) && !IsSpace(t[|t| - 1])))
    ensures Trim(a + t + b) == t
  {
    if t == "" {
      assert a + t + b == (a + b) + "";
      TrimLeftOver(a + b, "");
    } else {
      assert a + t + b == a + (t + b);
      TrimLeftOver(a, t + b);
      TrimRightOver(t, b);
    }
  }

  lemma TrimParts(s: string) returns (a: string, b: string)
    ensures s == a + Trim(s) + b && AllSpace(a) && AllSpace(b)
  {
    a := TrimLeftParts(s);
    b := TrimRightParts(TrimLeft(s));
    assert a + (Trim(s) + b) == a + Trim(s) + b;
  }

  // ---------- numbers ----------

  predicate IsDigit(c: char)
  {
    '0' <= c <= '9'
  }

  function DigitChar(d: nat): (c: char)
    requires d < 10
    ensures IsDigit(c) && c as int - '0' as int == d
  {
    '0' + d as char
  }

  function NatToString(n: nat): (s: string)
    ensures s != "" && forall c | c in s :: IsDigit(c)
  {
    if n < 10 then [DigitChar(n)] else NatToString(n / 10) + [DigitChar(n % 10)]
  }

  // QString::number
  function IntToString(n: int): (s: string)
    ensures s != "" && forall c | c in s :: IsDigit(c) || c == '-'
  {
    if n < 0 then "-" + NatToString(-n) else NatToString(n)
  }

  function DigitValue(c: char): nat
    requires IsDigit(c)
  {
    c as int - '0' as int
  }

  function DigitsValue(s: string): nat
    requires forall c | c in s :: IsDigit(c)
  {
    if s == "" then 0
    else 10 * DigitsValue(s[..|s| - 1]) + DigitValue(s[|s| - 1])
  }

  lemma {:induction false} DigitsValueOfNat(n: nat)
    ensures DigitsValue(NatToString(n)) == n
  {
    if n < 10 {
      assert NatToString(n) == [DigitChar(n)];
      assert DigitsValue([DigitChar(n)][..0]) == 0;
    } else {
      DigitsValueOfNat(n / 10);
      var s := NatToString(n);
      assert s[..|s| - 1] == NatToString(n / 10);
    }
  }

  // Optional sign and digits, nothing else.
  function ParseSigned(s: string): Option<int>
  {
    var negative := s != "" && s[0] == '-';
    var digits := if negative || (s != "" && s[0] == '+') then s[1..] else s;
    if digits != "" && forall c | c in digits :: IsDigit(c) then
      Some(if negative then 0 - DigitsValue(digits) else DigitsValue(digits) as int)
    else None
  }

  // toInt and toLongLong skip white space at both ends and refuse values outside the type.
  function ParseInt(s: string, bits: nat): Option<int>
    requires bits == 32 || bits == 64
  {
    var limit := if bits == 32 then 0x8000_0000 else 0x8000_0000_0000_0000;
    match ParseSigned(Trim(s))
    case Some(n) => if -limit <= n < limit then Some(n) else None
    case None => None
  }

  lemma ParseSignedOfNumber(n: int)
    ensures ParseSigned(IntToString(n)) == Some(n)
  {
    if n < 0 {
      DigitsValueOfNat(-n);
      assert IntToString(n)[1..] == NatToString(-n);
    } else {
      DigitsValueOfNat(n);
      var s := IntToString(n);
      assert s[0] in s;
    }
  }

  lemma ParseIntOfNumber(n: int, bits: nat)
    requires bits == 32 ==> -0x8000_0000 <= n < 0x8000_0000
    requires bits == 64 ==> -0x8000_0000_0000_0000 <= n < 0x8000_0000_0000_0000
    requires bits == 32 || bits == 64
    ensures ParseInt(IntToString(n), bits) == Some(n)
  {
    var s := IntToString(n);
    assert s[0] in s;
    assert TrimLeft(s) == s;
    ParseSignedOfNumber(n);
  }

  // ---------- exactly the numerals are read ----------

  predicate AllZeros(s: string) { forall i | 0 <= i < |s| :: s[i] == '0' }

  // A sign at most, zeros, and the number as it is written.
  ghost predicate Numeral(t: string, n: int)
  {
    exists sign, zeros :: NumeralOf(t, n, sign, zeros)
  }

  ghost predicate NumeralOf(t: string, n: int, sign: string, zeros: string)
  {
    && t == sign + (zeros + NatToString(if n < 0 then -n else n)) && AllZeros(zeros)
    && ((sign == "-" && n <= 0) || ((sign == "+" || sign == "") && n >= 0))
  }

  lemma {:induction false} ZerosAreNothing(zeros: string, s: string)
    requires AllZeros(zeros) && forall c | c in s :: IsDigit(c)
    ensures DigitsValue(zeros + s) == DigitsValue(s)
    decreases |s|, |zeros|
  {
    var all := zeros + s;
    if s != "" {
      assert all[..|all| - 1] == zeros + s[..|s| - 1];
      ZerosAreNothing(zeros, s[..|s| - 1]);
    } else if zeros != "" {
      assert all == zeros;
      assert zeros[..|zeros| - 1] + "" == zeros[..|zeros| - 1];
      ZerosAreNothing(zeros[..|zeros| - 1], "");
    }
  }

  lemma {:induction false} DigitsAreNumeral(d: string) returns (zeros: string)
    requires d != "" && forall c | c in d :: IsDigit(c)
    ensures AllZeros(zeros) && d == zeros + NatToString(DigitsValue(d))
    decreases |d|
  {
    var front, last := d[..|d| - 1], d[|d| - 1];
    assert last in d && d == front + [last];
    assert DigitChar(DigitValue(last)) == last;
    if front == "" {
      zeros := "";
      assert DigitsValue(front) == 0;
    } else {
      zeros := DigitsAreNumeral(front);
      zeros := OneDigitMore(zeros, DigitsValue(front), last);
    }
  }

  lemma OneDigitMore(zeros: string, v: nat, last: char) returns (more: string)
    requires AllZeros(zeros) && IsDigit(last)
    ensures AllZeros(more) && zeros + NatToString(v) + [last] == more + NatToString(10 * v + DigitValue(last))
  {
    var all := 10 * v + DigitValue(last);
    assert DigitChar(DigitValue(last)) == last;
    if v == 0 {
      assert NatToString(0) == "0" && NatToString(all) == [last];
      more := zeros + "0";
    } else {
      assert all / 10 == v && all % 10 == DigitValue(last);
      more := zeros;
      assert zeros + NatToString(v) + [last] == zeros + (NatToString(v) + [last]);
    }
  }

  lemma SignedIff(t: string, n: int)
    ensures ParseSigned(t) == Some(n) <==> Numeral(t, n)
  {
    if ParseSigned(t) == Some(n) { SignedIsNumeral(t, n); }
    if Numeral(t, n) { NumeralIsSigned(t, n); }
  }

  lemma SignedIsNumeral(t: string, n: int)
    requires ParseSigned(t) == Some(n)
    ensures Numeral(t, n)
  {
    var signed := t[0] == '-' || t[0] == '+';
    var sign, digits := if signed then [t[0]] else "", if signed then t[1..] else t;
    var zeros := DigitsAreNumeral(digits);
    hide DigitsValue; hide NatToString;
    if signed { assert t == sign + digits; } else { NothingInFront(sign, digits); }
    hide ParseSigned;
    assert NumeralOf(t, n, sign, zeros);
  }

  lemma NumeralIsSigned(t: string, n: int)
    requires Numeral(t, n)
    ensures ParseSigned(t) == Some(n)
  {
    var sign, zeros :| NumeralOf(t, n, sign, zeros);
    NumeralDigits(zeros, if n < 0 then -n else n);
    var d := zeros + NatToString(if n < 0 then -n else n);
    assert t == sign + d;
    hide ParseSigned; hide DigitsValue; hide NatToString; hide NumeralOf;
    if sign == "" {
      NothingInFront(sign, d);
      UnsignedDigits(d);
    } else {
      SignedDigits(sign, d);
    }
  }

  lemma NothingInFront<T>(a: seq<T>, s: seq<T>)
    requires a == []
    ensures a + s == s
  {
  }

  lemma UnsignedDigits(d: string)
    requires d != "" && (forall c | c in d :: IsDigit(c))
    ensures ParseSigned(d) == Some(DigitsValue(d))
  {
    hide DigitsValue;
    assert d[0] in d;
  }

  lemma SignedDigits(sign: string, d: string)
    requires d != "" && (forall c | c in d :: IsDigit(c)) && (sign == "-" || sign == "+")
    ensures ParseSigned(sign + d) == Some(if sign == "-" then 0 - DigitsValue(d) else DigitsValue(d) as int)
  {
    hide DigitsValue;
    assert (sign + d)[1..] == d && (sign + d)[0] == sign[0];
  }

  lemma NumeralDigits(zeros: string, m: nat)
    requires AllZeros(zeros)
    ensures var d := zeros + NatToString(m); d != "" && (forall c | c in d :: IsDigit(c)) && DigitsValue(d) == m
  {
    assert forall c | c in NatToString(m) :: IsDigit(c);
    ZerosAreNothing(zeros, NatToString(m));
    DigitsValueOfNat(m);
  }

  // A number is read if and only if the text is a numeral for it with white space around it at
  // most, and the number is one of the type.
  lemma ParseIntIff(s: string, bits: nat, n: int)
    requires bits == 32 || bits == 64
    ensures ParseInt(s, bits) == Some(n)
            <==> (if bits == 32 then -0x8000_0000 <= n < 0x8000_0000 else -0x8000_0000_0000_0000 <= n < 0x8000_0000_0000_0000)
                 && exists a, t, b :: Around(s, a, t, b) && Numeral(t, n)
  {
    hide Numeral; hide ParseSigned; hide Trim;
    if exists a, t, b :: Around(s, a, t, b) && Numeral(t, n) {
      var a, t, b :| Around(s, a, t, b) && Numeral(t, n);
      NumeralHasNoSpace(t, n);
      TrimAround(a, t, b);
      SignedIff(t, n);
    }
    if ParseSigned(Trim(s)) == Some(n) {
      SignedIff(Trim(s), n);
      var a, b := TrimParts(s);
      assert Around(s, a, Trim(s), b);
    }
  }

  lemma NumeralHasNoSpace(t: string, n: int)
    requires Numeral(t, n)
    ensures t != "" && !IsSpace(t[0]) && !IsSpace(t[|t| - 1])
  {
    var sign, zeros :| NumeralOf(t, n, sign, zeros);
    NumeralDigits(zeros, if n < 0 then -n else n);
    var d := zeros + NatToString(if n < 0 then -n else n);
    assert t == sign + d && t[|t| - 1] == d[|d| - 1] && d[|d| - 1] in d && d[0] in d;
    assert t[0] == (if sign == "" then d[0] else sign[0]);
  }
}
