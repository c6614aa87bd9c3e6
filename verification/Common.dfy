/** Constants of kvconstants.h and the C strings every component passes around. */
module Common {

  datatype Option<+T> = None | Some(value: T)

  const NUL: char := '\0'

  const MAX_KEYLEN: nat := 1024
  const MAX_VALLEN: nat := 1024

  // Error codes. Zero is success; find_entry also returns positions >= 0.
  const ERRKEYLEN: int := -11
  const ERRVALLEN: int := -12
  const ERRNOKEY: int := -13
  const ERRINVLDMSG: int := -14

  ghost predicate Distinct<T>(s: seq<T>) {
    forall i, j :: 0 <= i < j < |s| ==> s[i] != s[j]
  }

  type Hash64 = x: int | 0 <= x < 0x1_0000_0000_0000_0000

  /** A C string is held without its terminator; its characters are never NUL. */
  predicate IsCString(s: string) {
    NUL !in s
  }

  /** strlen of the C string that starts at offset `i` of `data`. */
  function StrLen(data: string, i: nat): (n: nat)
    requires i <= |data|
    ensures i + n <= |data| && NUL !in data[i..i + n]
    ensures i + n < |data| ==> data[i + n] == NUL
    decreases |data| - i
  {
    if i == |data| || data[i] == NUL then 0 else 1 + StrLen(data, i + 1)
  }

  function CStrAt(data: string, i: nat): (s: string)
    requires i <= |data|
    ensures IsCString(s)
  {
    data[i..i + StrLen(data, i)]
  }

  /** A string written with its terminator is read back from where it was written. */
  lemma CStrRoundTrip(data: string, i: nat, s: string)
    requires IsCString(s)
    requires i + |s| < |data| && data[i..i + |s|] == s && data[i + |s|] == NUL
    ensures CStrAt(data, i) == s
  {
    var n := StrLen(data, i);
    assert forall j :: 0 <= j < |s| ==> data[i + j] == s[j];
    assert forall j :: i <= j < i + n ==> data[j] in data[i..i + n];
    assert n == |s|;
  }

  /** Consecutive numbers from 0 that all have a name in a finite directory are no more than its entries. */
  lemma {:induction false} PrefixFits<N>(names: set<N>, name: nat -> N, n: nat)
    requires forall i, j :: 0 <= i < j < n ==> name(i) != name(j)
    requires forall i :: 0 <= i < n ==> name(i) in names
    ensures n <= |names|
  {
    if n > 0 {
      PrefixFits(names - {name(n - 1)}, name, n - 1);
    }
  }
}
