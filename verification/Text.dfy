/** Small vocabulary shared by every module.

    Byte buffers and UTF-8 text are both modelled as `string`: a byte is the character
    with the same code, so `"\n"` is the byte 0x0A. */
module Wrappers {

  datatype Option<+T> = None | Some(value: T)

  datatype Result<+T, +E> = Ok(value: T) | Err(error: E)
}

module Widths {
  const I64_MAX: nat := 0x7FFF_FFFF_FFFF_FFFF
  const U64_MAX: nat := 0xFFFF_FFFF_FFFF_FFFF
  const USIZE_MAX: nat := 0xFFFF_FFFF_FFFF_FFFF
}

module Text {

  /** The concatenation of `parts`. */
  function Flatten(parts: seq<string>): string {
    if parts == [] then "" else parts[0] + Flatten(parts[1..])
  }

  lemma {:induction false} FlattenAppend(a: seq<string>, b: seq<string>)
    ensures Flatten(a + b) == Flatten(a) + Flatten(b)
  {
    if a == [] {
      assert a + b == b;
    } else {
      assert (a + b)[1..] == a[1..] + b;
      FlattenAppend(a[1..], b);
    }
  }

  lemma FlattenSnoc(a: seq<string>, last: string)
    ensures Flatten(a + [last]) == Flatten(a) + last
  {
    FlattenAppend(a, [last]);
    assert Flatten([last]) == last + Flatten([]);
  }

  predicate InRange(indices: seq<nat>, n: nat) {
    forall k | 0 <= k < |indices| :: indices[k] < n
  }

  /** The elements of `s` at `indices`, in that order. */
  function Pick<T>(s: seq<T>, indices: seq<nat>): (r: seq<T>)
    requires InRange(indices, |s|)
    ensures |r| == |indices|
    ensures forall k | 0 <= k < |r| :: r[k] == s[indices[k]]
  {
    seq(|indices|, k requires 0 <= k < |indices| => s[indices[k]])
  }

  /** `0, 1, ..., n - 1`. */
  function Upto(n: nat): (r: seq<nat>)
    ensures |r| == n
    ensures forall k | 0 <= k < n :: r[k] == k
  {
    seq(n, k => k)
  }

  lemma UptoContains(n: nat, d: nat)
    requires d < n
    ensures d in Upto(n)
  {
    assert Upto(n)[d] == d;
  }

  predicate StrictlyIncreasing(s: seq<nat>) {
    forall i, j | 0 <= i < j < |s| :: s[i] < s[j]
  }

  /** The first position of `name`, or `|names|`. */
  function IndexOf(names: seq<string>, name: string): (i: nat)
    ensures i <= |names|
    ensures i < |names| ==> names[i] == name
    ensures forall j | 0 <= j < i :: names[j] != name
  {
    if names == [] then 0 else if names[0] == name then 0 else 1 + IndexOf(names[1..], name)
  }

  /** Without the slashes at its end. */
  function TrimSlashes(s: string): string {
    if s != "" && s[|s| - 1] == '/' then TrimSlashes(s[..|s| - 1]) else s
  }

  function Digit(d: nat): (c: char)
    requires d < 10
    ensures '0' <= c <= '9'
    ensures c as int == '0' as int + d
  {
    ('0' as int + d) as char
  }

  /** Decimal notation without leading zeros. */
  function Decimal(n: nat): (s: string)
    ensures s != ""
    ensures forall i | 0 <= i < |s| :: '0' <= s[i] <= '9'
  {
    if n < 10 then [Digit(n)] else Decimal(n / 10) + [Digit(n % 10)]
  }
}
