/** The digit loop that turns the printed form of a DECIMAL literal into its unscaled integer. */
module DecimalText {
  import opened Bytes
  import opened Decimals

  const MINUS: byte := 0x2D
  const PLUS: byte := 0x2B
  const DOT: byte := 0x2E

  function Body(text: seq<byte>): seq<byte> {
    if text != [] && (text[0] == MINUS || text[0] == PLUS) then text[1..] else text
  }

  function Whole(body: seq<byte>): seq<byte> {
    body[..Find(body, DOT)]
  }

  function Fraction(body: seq<byte>): seq<byte> {
    if Find(body, DOT) == |body| then [] else body[Find(body, DOT) + 1..]
  }

  /** An optional sign, digits, and optionally a dot with at most `scale` further digits. */
  predicate WellFormed(text: seq<byte>, scale: nat) {
    var body := Body(text);
    AllDigits(Whole(body)) && AllDigits(Fraction(body)) && |Fraction(body)| <= scale
  }

  /** sign * digits * 10^(scale - fraction digits). */
  function UnscaledValue(text: seq<byte>, scale: nat): int
    requires WellFormed(text, scale)
  {
    var body := Body(text);
    var magnitude := Value(Whole(body) + Fraction(body)) * Pow10(scale - |Fraction(body)|);
    if text != [] && text[0] == MINUS then 0 - magnitude else magnitude
  }

  /** Scans digits and at most one dot; fails on a second dot, any other character, or more fraction
      digits than the scale. */
  method Scan(body: seq<byte>, scale: nat) returns (ok: bool, acc: nat, fracDigits: nat)
    ensures ok <==> AllDigits(Whole(body)) && AllDigits(Fraction(body)) && |Fraction(body)| <= scale
    ensures ok ==> acc == Value(Whole(body) + Fraction(body)) && fracDigits == |Fraction(body)|
  {
    ghost var d := Find(body, DOT);
    var pos, seenDot := 0, false;
    acc, fracDigits := 0, 0;
    while pos < |body|
      invariant 0 <= pos <= |body|
      invariant seenDot <==> d < pos
      invariant fracDigits == if seenDot then pos - d - 1 else 0
      invariant fracDigits <= scale
      invariant AllDigits(Seen(body, d, pos)) && acc == Value(Seen(body, d, pos))
    {
      var c := body[pos];
      if c == DOT {
        if seenDot {
          Refused(body, pos);
          return false, 0, 0;
        }
        assert Seen(body, d, pos + 1) == Seen(body, d, pos);
        seenDot := true;
      } else {
        if !IsDigit(c) {
          Refused(body, pos);
          return false, 0, 0;
        }
        SeenStep(body, d, pos);
        acc := 10 * acc + (c - 0x30);
        if seenDot {
          if fracDigits >= scale {
            return false, 0, 0;
          }
          fracDigits := fracDigits + 1;
        }
      }
      pos := pos + 1;
    }
    SeenAll(body, Whole(body), Fraction(body));
    ok := true;
  }

  /** Scans the text after its sign, then pads with zeros up to the scale. */
  method Unscaled(text: seq<byte>, scale: nat) returns (r: Option<int>)
    ensures r.Some? <==> WellFormed(text, scale)
    ensures r.Some? ==> r.value == UnscaledValue(text, scale)
  {
    ghost var fraction := Fraction(Body(text));
    var ok, acc, fracDigits := Scan(Body(text), scale);
    if !ok {
      return None;
    }
    ghost var number := acc;
    while fracDigits < scale
      invariant |fraction| <= fracDigits <= scale
      invariant acc == number * Pow10(fracDigits - |fraction|)
    {
      acc := acc * 10;
      fracDigits := fracDigits + 1;
      PaddingStep(number, fracDigits - |fraction|);
    }
    r := Some(if text != [] && text[0] == MINUS then 0 - acc as int else acc as int);
  }

  /** A character other than a digit and the first dot is in the whole or the fraction part. */
  lemma Refused(body: seq<byte>, pos: nat)
    requires pos < |body| && pos != Find(body, DOT) && !IsDigit(body[pos])
    ensures !AllDigits(Whole(body)) || !AllDigits(Fraction(body))
  {
    var d := Find(body, DOT);
    if pos < d {
      assert Whole(body)[pos] == body[pos];
    } else {
      assert Fraction(body)[pos - d - 1] == body[pos];
    }
  }

  lemma SeenStep(body: seq<byte>, d: nat, pos: nat)
    requires d <= |body| && pos < |body| && pos != d && IsDigit(body[pos])
    requires AllDigits(Seen(body, d, pos))
    ensures AllDigits(Seen(body, d, pos + 1))
    ensures Value(Seen(body, d, pos + 1)) == 10 * Value(Seen(body, d, pos)) + (body[pos] - 0x30)
  {
    assert Seen(body, d, pos + 1) == Seen(body, d, pos) + [body[pos]];
  }

  lemma SeenAll(body: seq<byte>, w: seq<byte>, f: seq<byte>)
    requires body == w + [DOT] + f || (body == w && f == [])
    ensures Seen(body, |w|, |body|) == w + f
    ensures AllDigits(w + f) <==> AllDigits(w) && AllDigits(f)
  {
    if AllDigits(w + f) {
      assert forall i | 0 <= i < |w| :: w[i] == (w + f)[i];
      assert forall i | 0 <= i < |f| :: f[i] == (w + f)[|w| + i];
    }
  }

  /** The digits among the first `pos` characters of a body whose first dot is at `d`. */
  ghost function Seen(body: seq<byte>, d: nat, pos: nat): seq<byte>
    requires d <= |body| && pos <= |body|
  {
    if d < pos then body[..d] + body[d + 1..pos] else body[..pos]
  }

  lemma PaddingStep(n: nat, k: nat)
    requires k > 0
    ensures n * Pow10(k) == n * Pow10(k - 1) * 10
  {
  }
}
