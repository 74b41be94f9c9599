/** Decimal numbers as fmt's %d prints them and strconv.Atoi reads them, and byte search. */
module Decimal {
  import opened Bytes

  const COLON: Byte := 58
  const MAX_INT: int := 0x7FFF_FFFF_FFFF_FFFF

  predicate IsDigit(b: Byte) {
    48 <= b <= 57
  }

  function Print(n: nat): (s: Bytes)
    ensures s != []
  {
    if n < 10 then [48 + n] else Print(n / 10) + [48 + n % 10]
  }

  /** The number a digit string denotes; None if it is empty or has another character. */
  function Digits(s: Bytes): (r: Option<int>)
    ensures r.Some? ==> r.value >= 0
  {
    if s == [] then None
    else
      var last := s[|s| - 1];
      if !IsDigit(last) then None
      else
        var d := last - 48;
        if |s| == 1 then Some(d)
        else
          match Digits(s[..|s| - 1])
          case None => None
          case Some(n) => Some(10 * n + d)
  }

  /** Optional sign, digits, and the range of a 64-bit int. */
  function Atoi(s: Bytes): Option<int> {
    if s == [] then None
    else
      var signed := s[0] == 43 || s[0] == 45;
      match Digits(if signed then s[1..] else s)
      case None => None
      case Some(n) =>
        var v := if s[0] == 45 then -n else n;
        if -MAX_INT - 1 <= v <= MAX_INT then Some(v) else None
  }

  lemma {:induction false} PrintDigits(n: nat)
    ensures Digits(Print(n)) == Some(n)
    ensures forall i :: 0 <= i < |Print(n)| ==> IsDigit(Print(n)[i])
  {
    if n >= 10 {
      PrintDigits(n / 10);
      assert Print(n)[..|Print(n)| - 1] == Print(n / 10);
    }
  }

  /** Atoi undoes %d for every length an int can hold. */
  lemma AtoiPrint(n: nat)
    requires n <= MAX_INT
    ensures Atoi(Print(n)) == Some(n)
    ensures COLON !in Print(n)
  {
    PrintDigits(n);
    assert IsDigit(Print(n)[0]);
    forall b | b in Print(n) ensures b != COLON {
      var i :| 0 <= i < |Print(n)| && Print(n)[i] == b;
      assert IsDigit(Print(n)[i]);
    }
  }

  /** `bytes.IndexByte`: the first position of b, or -1. */
  function IndexByte(s: Bytes, b: Byte): (i: int)
    ensures -1 <= i < |s|
    ensures i == -1 <==> b !in s
    ensures i >= 0 ==> s[i] == b && b !in s[..i]
  {
    if s == [] then -1
    else if s[0] == b then 0
    else
      var i := IndexByte(s[1..], b);
      assert s == [s[0]] + s[1..];
      assert i >= 0 ==> s[..i + 1] == [s[0]] + s[1..][..i];
      if i == -1 then -1 else i + 1
  }

  lemma {:induction false} IndexAfter(head: Bytes, b: Byte, tail: Bytes)
    requires b !in head
    ensures IndexByte(head + [b] + tail, b) == |head|
  {
    if head != [] {
      assert (head + [b] + tail)[1..] == head[1..] + [b] + tail;
      IndexAfter(head[1..], b, tail);
    }
  }
}
