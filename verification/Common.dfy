/** Small shared vocabulary: optional values, fallible results and Go's 64-bit integers. */
module Common {
  datatype Option<+T> = None | Some(value: T)

  datatype Result<+T, +E> = Ok(value: T) | Err(error: E)

  type byte = x: int | 0 <= x < 256

  /** A Go string: bytes. */
  type Text = seq<byte>

  const TWO63: int := 0x8000_0000_0000_0000
  const TWO64: int := 0x1_0000_0000_0000_0000

  type int64 = x: int | -TWO63 <= x < TWO63

  /** Two's-complement truncation to 64 bits, which is what Go arithmetic does silently. */
  function Wrap(x: int): (r: int64)
    ensures -TWO63 <= x < TWO63 ==> r == x
    ensures TWO63 <= x < TWO63 + TWO64 ==> r == x - TWO64
    ensures (x - r) % TWO64 == 0
  {
    var m := x % TWO64;
    if m < TWO63 then m else m - TWO64
  }

  /** The `next < total` idiom detects exactly a negative addend or a wrap. */
  lemma GrowsExactly(total: int64, d: int64)
    requires total >= 0
    ensures Wrap(total + d) >= total <==> d >= 0 && total + d < TWO63
    ensures Wrap(total + d) >= total ==> Wrap(total + d) == total + d
  {
  }

  /** Go's integer division truncates toward zero; Dafny's does not. */
  function TruncDiv(a: int, b: int): (q: int)
    requires b > 0
    ensures a >= 0 ==> q * b <= a < q * b + b && q >= 0
    ensures a < 0 ==> q * b - b < a <= q * b && q <= 0
  {
    if a >= 0 then a / b else -((-a) / b)
  }

  // ---- Names --------------------------------------------------------------------------------------

  const LETTERS := "abcdefghijklm" + "nopqrstuvwxyz"
  const DIGITS := "0123456789"

  lemma FirstLetters(c: char)
    ensures 'a' <= c <= 'm' <==> c in "abcdefghijklm"
  {
    assert 'a' <= c <= 'm' ==> "abcdefghijklm"[c as int - 'a' as int] == c;
  }

  lemma LastLetters(c: char)
    ensures 'n' <= c <= 'z' <==> c in "nopqrstuvwxyz"
  {
    assert 'n' <= c <= 'z' ==> "nopqrstuvwxyz"[c as int - 'n' as int] == c;
  }

  lemma Digits(c: char)
    ensures '0' <= c <= '9' <==> c in DIGITS
  {
    assert '0' <= c <= '9' ==> DIGITS[c as int - '0' as int] == c;
  }

  lemma Alphabet(c: char)
    ensures 'a' <= c <= 'z' <==> c in LETTERS
    ensures '0' <= c <= '9' <==> c in DIGITS
  {
    FirstLetters(c);
    LastLetters(c);
    Digits(c);
  }
}
