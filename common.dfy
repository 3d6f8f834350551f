/** Shared vocabulary: optional values, results carrying an error message,
    Python truthiness of optional strings, and decimal text. */
module Common {

  datatype Option<+T> = None | Some(value: T)

  /** The outcome of an operation that either returns a value or raises;
      the raised exception is represented by its message. */
  datatype Result<+T> = Ok(value: T) | Err(error: string)

  /** Python's `if x:` on a value that is either None or a string:
      both None and the empty string are falsy. */
  predicate Truthy(o: Option<string>) {
    o.Some? && o.value != ""
  }

  /** `t` contains `s` as a contiguous block of characters. */
  predicate Contains(t: string, s: string) {
    s <= t || (t != [] && Contains(t[1..], s))
  }

  lemma {:induction false} ContainsMiddle(a: string, s: string, b: string)
    ensures Contains(a + s + b, s)
  {
    if a == [] {
      assert a + s + b == s + b;
    } else {
      ContainsMiddle(a[1..], s, b);
      assert (a + s + b)[1..] == a[1..] + s + b;
    }
  }

  predicate IsDigit(c: char) {
    '0' <= c <= '9'
  }

  function DigitValue(c: char): (d: nat)
    requires IsDigit(c)
    ensures d < 10
  {
    c as int - '0' as int
  }

  function DigitChar(d: nat): (c: char)
    requires d < 10
    ensures IsDigit(c) && DigitValue(c) == d
  {
    ('0' as int + d) as char
  }

  /** `"%0*d" % (width, n)`: the decimal digits of n, left-padded with
      zeros to at least `width` characters. */
  function ZeroPad(n: nat, width: nat): (s: string)
    decreases n + width
  {
    if n < 10 && width <= 1 then [DigitChar(n)]
    else ZeroPad(n / 10, if width == 0 then 0 else width - 1) + [DigitChar(n % 10)]
  }

  /** `"%02d" % n` for a number below 100 is exactly its two digits. */
  lemma TwoDigits(n: nat)
    requires n < 100
    ensures ZeroPad(n, 2) == [DigitChar(n / 10), DigitChar(n % 10)]
  {
    assert ZeroPad(n / 10, 1) == [DigitChar(n / 10)];
  }

  /** `"%0*d"` of a signed number; a negative number gets a leading minus. */
  function SignedPad(i: int, width: nat): string {
    if i < 0 then "-" + ZeroPad(-i, width) else ZeroPad(i, width)
  }
}
