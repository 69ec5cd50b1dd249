/** Comparisons that accumulate every difference instead of stopping at the first. */
module ConstantTime {
  /** Bitwise exclusive or and or on natural numbers. */
  function BitXor(a: nat, b: nat): nat
    decreases a + b
  {
    if a == 0 && b == 0 then 0
    else (if a % 2 == b % 2 then 0 else 1) + 2 * BitXor(a / 2, b / 2)
  }

  function BitOr(a: nat, b: nat): nat
    decreases a + b
  {
    if a == 0 && b == 0 then 0
    else (if a % 2 == 1 || b % 2 == 1 then 1 else 0) + 2 * BitOr(a / 2, b / 2)
  }

  lemma {:induction false} XorIsZero(a: nat, b: nat)
    ensures BitXor(a, b) == 0 <==> a == b
    decreases a + b
  {
    if a != 0 || b != 0 {
      XorIsZero(a / 2, b / 2);
    }
  }

  lemma {:induction false} OrIsZero(a: nat, b: nat)
    ensures BitOr(a, b) == 0 <==> a == 0 && b == 0
    decreases a + b
  {
    if a != 0 || b != 0 {
      OrIsZero(a / 2, b / 2);
    }
  }

  /** Byte arrays: true exactly for equal contents. */
  method BytesEqual(left: array<nat>, right: array<nat>) returns (same: bool)
    ensures same <==> left[..] == right[..]
  {
    if left.Length != right.Length {
      assert |left[..]| != |right[..]|;
      return false;
    }
    var mismatch: nat := 0;
    for index := 0 to left.Length
      invariant mismatch == 0 <==> left[..index] == right[..index]
    {
      XorIsZero(left[index], right[index]);
      OrIsZero(mismatch, BitXor(left[index], right[index]));
      assert left[..index + 1] == left[..index] + [left[index]];
      assert right[..index + 1] == right[..index] + [right[index]];
      mismatch := BitOr(mismatch, BitXor(left[index], right[index]));
    }
    assert left[..] == left[..left.Length] && right[..] == right[..right.Length];
    same := mismatch == 0;
  }

  /** Strings, by code unit: true exactly for equal strings. */
  method StringsEqual(left: string, right: string) returns (same: bool)
    ensures same <==> left == right
  {
    if |left| != |right| {
      return false;
    }
    var mismatch: nat := 0;
    for i := 0 to |left|
      invariant mismatch == 0 <==> left[..i] == right[..i]
    {
      XorIsZero(left[i] as nat, right[i] as nat);
      OrIsZero(mismatch, BitXor(left[i] as nat, right[i] as nat));
      assert left[..i + 1] == left[..i] + [left[i]] && right[..i + 1] == right[..i] + [right[i]];
      mismatch := BitOr(mismatch, BitXor(left[i] as nat, right[i] as nat));
    }
    assert left == left[..|left|] && right == right[..|right|];
    same := mismatch == 0;
  }
}
