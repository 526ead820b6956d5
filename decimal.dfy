/**
 * Decimal text of the row IDs that go into a DELETE statement: Python's
 * str() of an int, and ','.join(...) of those strings. A small parser for
 * the same text is the partner of the rendering: it reads every ID list
 * back exactly.
 */
module Decimal {
  import opened Wrappers

  predicate IsDigit(c: char) {
    '0' <= c <= '9'
  }

  predicate AllDigits(s: string) {
    forall i | 0 <= i < |s| :: IsDigit(s[i])
  }

  function DigitValue(c: char): (d: nat)
    requires IsDigit(c)
    ensures d < 10
  {
    c as int - '0' as int
  }

  function DigitChar(d: nat): (c: char)
    requires d < 10
    ensures IsDigit(c) && DigitValue(c) == d
  {
    ('0' as int + d) as char
  }

  /** str(n) for n >= 0: the shortest decimal numeral of n. */
  function NatToString(n: nat): (s: string)
    ensures |s| > 0 && AllDigits(s)
    ensures |s| > 1 ==> s[0] != '0'
  {
    if n < 10 then [DigitChar(n)] else NatToString(n / 10) + [DigitChar(n % 10)]
  }

  /** The number a string of digits denotes (most significant digit first). */
  function DigitsValue(s: string): nat
    requires AllDigits(s)
  {
    if s == [] then 0 else 10 * DigitsValue(s[..|s| - 1]) + DigitValue(s[|s| - 1])
  }

  lemma {:induction false} DigitsRoundTrip(n: nat)
    ensures DigitsValue(NatToString(n)) == n
  {
    if n >= 10 {
      var s := NatToString(n);
      assert s[..|s| - 1] == NatToString(n / 10);
      DigitsRoundTrip(n / 10);
    }
  }

  /** str(n): a minus sign before the numeral of |n| when n is negative. */
  function IntToString(n: int): (s: string)
    ensures |s| > 0 && ',' !in s
  {
    if n < 0 then "-" + NatToString(-n) else NatToString(n)
  }

  /** Reads one decimal integer, with an optional leading minus sign. */
  function ParseInt(s: string): Option<int> {
    if |s| > 0 && AllDigits(s) then Some(DigitsValue(s))
    else if |s| > 1 && s[0] == '-' && AllDigits(s[1..]) then Some(-(DigitsValue(s[1..]) as int))
    else None
  }

  lemma IntRoundTrip(n: int)
    ensures ParseInt(IntToString(n)) == Some(n)
  {
    var s := IntToString(n);
    if n < 0 {
      assert !IsDigit(s[0]);
      assert s[1..] == NatToString(-n);
      DigitsRoundTrip(-n);
    } else {
      DigitsRoundTrip(n);
    }
  }

  /** ','.join(str(v) for v in ids): one numeral per ID, single commas between, none trailing. */
  function JoinIds(ids: seq<int>): (s: string)
    ensures ids != [] ==> |s| > 0 && s[0] != ',' && s[|s| - 1] != ','
  {
    if ids == [] then ""
    else if |ids| == 1 then IntToString(ids[0])
    else IntToString(ids[0]) + "," + JoinIds(ids[1..])
  }

  /** The index of the first comma of s. */
  function FirstComma(s: string): (k: nat)
    requires ',' in s
    ensures k < |s| && s[k] == ',' && ',' !in s[..k]
  {
    if s[0] == ',' then 0 else 1 + FirstComma(s[1..])
  }

  /** s.split(','): the pieces between commas, at least one. */
  function SplitCommas(s: string): (parts: seq<string>)
    ensures |parts| > 0
    decreases |s|
  {
    if ',' in s then
      var k := FirstComma(s);
      [s[..k]] + SplitCommas(s[k + 1..])
    else [s]
  }

  /** Parses every piece, failing as soon as one is not an integer. */
  function ParseAll(parts: seq<string>): (r: Option<seq<int>>)
    ensures r.Some? ==> |r.value| == |parts|
  {
    if parts == [] then Some([])
    else match (ParseInt(parts[0]), ParseAll(parts[1..]))
      case (Some(v), Some(vs)) => Some([v] + vs)
      case _ => None
  }

  /** Reads back a comma-separated list of decimal IDs. */
  function ParseIds(s: string): Option<seq<int>> {
    ParseAll(SplitCommas(s))
  }

  lemma {:induction false} FirstCommaAfter(a: string, b: string)
    requires ',' !in a
    ensures ',' in a + "," + b && FirstComma(a + "," + b) == |a|
  {
    var s := a + "," + b;
    assert s[|a|] == ',';
    if a != [] {
      assert s[1..] == a[1..] + "," + b;
      FirstCommaAfter(a[1..], b);
    }
  }

  function Numerals(ids: seq<int>): (r: seq<string>)
    ensures |r| == |ids|
  {
    if ids == [] then [] else [IntToString(ids[0])] + Numerals(ids[1..])
  }

  lemma {:induction false} SplitJoin(ids: seq<int>)
    requires ids != []
    ensures SplitCommas(JoinIds(ids)) == Numerals(ids)
  {
    if |ids| == 1 {
      assert Numerals(ids[1..]) == [];
    } else {
      var a, b := IntToString(ids[0]), JoinIds(ids[1..]);
      var s := a + "," + b;
      FirstCommaAfter(a, b);
      assert s[..|a|] == a;
      assert s[|a| + 1..] == b;
      SplitJoin(ids[1..]);
    }
  }

  lemma {:induction false} ParseNumerals(ids: seq<int>)
    ensures ParseAll(Numerals(ids)) == Some(ids)
  {
    if ids != [] {
      IntRoundTrip(ids[0]);
      ParseNumerals(ids[1..]);
      ParseAllCons(IntToString(ids[0]), Numerals(ids[1..]), ids[0], ids[1..]);
      assert [ids[0]] + ids[1..] == ids;
    }
  }

  lemma ParseAllCons(part: string, rest: seq<string>, v: int, vs: seq<int>)
    requires ParseInt(part) == Some(v) && ParseAll(rest) == Some(vs)
    ensures ParseAll([part] + rest) == Some([v] + vs)
  {
    assert ([part] + rest)[1..] == rest;
  }

  /** Every non-empty ID list is read back from its joined text exactly, one ID per numeral. */
  lemma IdListRoundTrip(ids: seq<int>)
    requires ids != []
    ensures ParseIds(JoinIds(ids)) == Some(ids)
    ensures |SplitCommas(JoinIds(ids))| == |ids|
  {
    SplitJoin(ids);
    ParseNumerals(ids);
  }
}
