/** Stand-ins for the kernel facilities the pixel processor relies on:
    error numbers, optional and error-carrying results, the conversion of
    an integer to a C `unsigned int`, and `strstr`. */
module Kernel {

  datatype Option<T> = None | Some(value: T)

  /** A value, or a negative kernel error number. */
  datatype Result<T> = Ok(value: T) | Err(errno: int)

  const EIO: int := 5
  const EBUSY: int := 16
  const EINVAL: int := 22

  const U32_MODULUS: int := 0x1_0000_0000

  /** `x` converted to a 32-bit `unsigned int`, wrapping modulo 2^32. */
  function U32(x: int): bv32
  {
    (x % U32_MODULUS) as bv32
  }

  /** `pat` occurs in `s` starting at index `i`. */
  predicate OccursAt(s: string, pat: string, i: nat)
  {
    i + |pat| <= |s| && s[i..i + |pat|] == pat
  }

  /** `strstr(s, pat) != NULL`: `s` is scanned from the left for `pat`. */
  function Contains(s: string, pat: string): bool
    decreases |s|
  {
    if |s| < |pat| then false
    else s[..|pat|] == pat || Contains(s[1..], pat)
  }

  /** The scan finds `pat` exactly when it occurs somewhere in `s`. */
  lemma {:induction false} ContainsIff(s: string, pat: string)
    ensures Contains(s, pat) <==> exists i: nat :: OccursAt(s, pat, i)
    decreases |s|
  {
    if |s| < |pat| {
      forall i: nat ensures !OccursAt(s, pat, i) { }
    } else if s[..|pat|] == pat {
      assert OccursAt(s, pat, 0);
    } else {
      ContainsIff(s[1..], pat);
      if Contains(s[1..], pat) {
        var j: nat :| OccursAt(s[1..], pat, j);
        assert s[1..][j..j + |pat|] == s[j + 1..j + 1 + |pat|];
        assert OccursAt(s, pat, j + 1);
      } else {
        forall i: nat | OccursAt(s, pat, i) ensures false {
          assert i != 0;
          assert s[1..][i - 1..i - 1 + |pat|] == s[i..i + |pat|];
          assert OccursAt(s[1..], pat, i - 1);
        }
      }
    }
  }

  /** Appending pieces one after the other is appending their concatenation. */
  lemma AppendTwo<T>(a: seq<T>, b: seq<T>, c: seq<T>)
    ensures a + b + c == a + (b + c)
  {
  }

  lemma AppendThree<T>(a: seq<T>, b: seq<T>, c: seq<T>, d: seq<T>)
    ensures a + b + c + d == a + (b + c + d)
  {
  }
}
