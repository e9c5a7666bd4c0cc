/**
 Text helpers the provider relies on: `Array.prototype.join` (used to build the
 author string) and `Number.prototype.toString` on an integer (used to build the
 external identifier).
 */
module Text {

  /** `xs.join(sep)`: the elements with `sep` between consecutive ones. */
  function Join(xs: seq<string>, sep: string): (r: string)
    ensures |xs| == 0 ==> r == ""
    ensures |xs| > 0 ==> xs[0] <= r
    ensures |xs| > 0 ==> |r| == TotalLength(xs) + (|xs| - 1) * |sep|
  {
    if |xs| == 0 then ""
    else if |xs| == 1 then xs[0]
    else xs[0] + sep + Join(xs[1..], sep)
  }

  /** Total length of the pieces of `xs`. */
  function TotalLength(xs: seq<string>): (n: nat)
  {
    if |xs| == 0 then 0 else |xs[0]| + TotalLength(xs[1..])
  }

  /** Appending one element to the joined prefix extends the joined string at its end. */
  lemma {:induction false} JoinSnoc(xs: seq<string>, x: string, sep: string)
    requires |xs| > 0
    ensures Join(xs + [x], sep) == Join(xs, sep) + sep + x
    decreases |xs|
  {
    if |xs| == 1 {
      assert xs + [x] == [xs[0], x];
      assert (xs + [x])[1..] == [x];
    } else {
      assert (xs + [x])[1..] == xs[1..] + [x];
      JoinSnoc(xs[1..], x, sep);
    }
  }

  /**
   The algorithm of `Array.prototype.join` (section 23.1.3.18 of ECMA-262): start
   from the empty string and, for every element, append the separator (except
   before the first) and then the element.
   */
  method JoinLoop(xs: seq<string>, sep: string) returns (s: string)
    ensures s == Join(xs, sep)
    ensures |xs| == 0 ==> s == ""
  {
    s := "";
    var k := 0;
    while k < |xs|
      invariant 0 <= k <= |xs|
      invariant s == Join(xs[..k], sep)
    {
      if k > 0 {
        assert xs[..k + 1] == xs[..k] + [xs[k]];
        JoinSnoc(xs[..k], xs[k], sep);
        s := s + sep;
      } else {
        assert xs[..1] == [xs[0]];
      }
      s := s + xs[k];
      k := k + 1;
    }
    assert xs[..k] == xs;
  }

  predicate IsDigit(c: char)
  {
    '0' <= c <= '9'
  }

  function DigitChar(d: nat): (c: char)
    requires d < 10
    ensures IsDigit(c)
    ensures c as int - '0' as int == d
  {
    ('0' as int + d) as char
  }

  /** Decimal digits of `n` with no leading zero (the string for 0 is "0"). */
  function NatToString(n: nat): (s: string)
    ensures |s| > 0
    ensures forall i :: 0 <= i < |s| ==> IsDigit(s[i])
    ensures |s| > 1 ==> s[0] != '0'
  {
    if n < 10 then [DigitChar(n)] else NatToString(n / 10) + [DigitChar(n % 10)]
  }

  function DigitValue(c: char): (d: nat)
    requires IsDigit(c)
    ensures d < 10
  {
    c as int - '0' as int
  }

  /** Reads a string of decimal digits back as a number (the empty string reads as 0). */
  function ParseNat(s: string): (n: nat)
    requires forall i :: 0 <= i < |s| ==> IsDigit(s[i])
  {
    if |s| == 0 then 0
    else ParseNat(s[..|s| - 1]) * 10 + DigitValue(s[|s| - 1])
  }

  /** Reads an optional minus sign followed by decimal digits. */
  function ParseInt(s: string): (n: int)
    requires |s| > 0
    requires s[0] == '-' ==> forall i :: 1 <= i < |s| ==> IsDigit(s[i])
    requires s[0] != '-' ==> forall i :: 0 <= i < |s| ==> IsDigit(s[i])
  {
    if s[0] == '-' then -(ParseNat(s[1..]) as int) else ParseNat(s)
  }

  lemma {:induction false} ParseNatToString(n: nat)
    ensures ParseNat(NatToString(n)) == n
  {
    var s := NatToString(n);
    if n < 10 {
      assert s[..0] == [];
    } else {
      ParseNatToString(n / 10);
      assert s[..|s| - 1] == NatToString(n / 10);
    }
  }

  /**
   `n.toString()` for an integer-valued JavaScript number: a minus sign for negatives,
   then the decimal digits, which read back as the number.
   */
  function IntToString(n: int): (r: string)
    ensures |r| > 0
    ensures r[0] == '-' <==> n < 0
    ensures n < 0 ==> forall i :: 1 <= i < |r| ==> IsDigit(r[i])
    ensures n >= 0 ==> forall i :: 0 <= i < |r| ==> IsDigit(r[i])
    ensures n >= 0 ==> |r| == 1 || r[0] != '0'
    ensures n < 0 ==> |r| > 1 && r[1] != '0'
    ensures ParseInt(r) == n
  {
    if n < 0 then
      var digits := NatToString(-n);
      ParseNatToString(-n);
      assert ("-" + digits)[1..] == digits;
      assert ("-" + digits)[1] == digits[0];
      // -n >= 1, so its digits are not the single "0"
      assert digits != "0";
      "-" + digits
    else
      ParseNatToString(n);
      NatToString(n)
  }

  /** Distinct ids get distinct strings. */
  lemma IntToStringInjective(m: int, n: int)
    ensures IntToString(m) == IntToString(n) <==> m == n
  {
  }
}
