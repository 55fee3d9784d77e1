/** Decimal numerals and byte search in byte strings. */
module Decimals {
  import opened Bytes

  type Text = seq<byte>

  predicate IsDigit(b: byte) {
    0x30 <= b <= 0x39
  }

  predicate AllDigits(s: Text) {
    forall i | 0 <= i < |s| :: IsDigit(s[i])
  }

  function Value(s: Text): nat {
    if s == [] then 0
    else 10 * Value(s[..|s| - 1]) + if IsDigit(s[|s| - 1]) then (s[|s| - 1] - 0x30) as nat else 0
  }

  function Printed(n: nat): (r: Text)
    ensures r != [] && AllDigits(r)
  {
    if n < 10 then [(0x30 + n) as byte] else Printed(n / 10) + [(0x30 + n % 10) as byte]
  }

  lemma {:induction false} ValueGrows(s: Text, i: nat)
    requires i <= |s|
    ensures Value(s[..i]) <= Value(s)
    decreases |s| - i
  {
    if i == |s| {
      assert s[..i] == s;
    } else {
      assert s[..i + 1][..i] == s[..i];
      ValueGrows(s, i + 1);
    }
  }

  lemma {:induction false} ValuePrinted(n: nat)
    ensures Value(Printed(n)) == n
  {
    if n < 10 {
      assert Printed(n)[..0] == [];
    } else {
      ValuePrinted(n / 10);
      var r := Printed(n);
      assert r[..|r| - 1] == Printed(n / 10);
    }
  }

  lemma {:induction false} PrintedLength(n: nat, digits: nat)
    requires n < Pow10(digits) && digits >= 1
    ensures |Printed(n)| <= digits
  {
    if n >= 10 {
      PrintedLength(n / 10, digits - 1);
    }
  }

  function Pow10(n: nat): nat {
    if n == 0 then 1 else 10 * Pow10(n - 1)
  }

  function Find(s: Text, b: byte): (i: nat)
    ensures i <= |s| && (forall j | 0 <= j < i :: s[j] != b) && (i < |s| ==> s[i] == b)
  {
    if s == [] || s[0] == b then 0 else 1 + Find(s[1..], b)
  }

  lemma {:induction false} FindAfter(s: Text, b: byte, rest: Text)
    requires b !in s
    ensures Find(s + [b] + rest, b) == |s|
  {
    if s != [] {
      assert (s + [b] + rest)[1..] == s[1..] + [b] + rest;
      FindAfter(s[1..], b, rest);
    }
  }

  lemma {:induction false} FindNone(s: Text, b: byte)
    requires b !in s
    ensures Find(s, b) == |s|
  {
    if s != [] {
      FindNone(s[1..], b);
    }
  }
}
