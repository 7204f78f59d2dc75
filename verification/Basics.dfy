// Vocabulary shared by every component of the model.
module Basics {
  datatype Option<+T> = None | Some(value: T)

  // A reading of Go's monotonic clock, in nanoseconds. The clock is always a parameter of the
  // model; the only thing ever assumed of it is that it does not run backwards.
  type Time = int

  type byte = x: int | 0 <= x < 256
  type uint16 = x: int | 0 <= x < 0x1_0000
  // Every assignment to a variable of this type is checked: a sum that would wrap does not verify.
  type uint32 = x: int | 0 <= x < 0x1_0000_0000

  type Bytes = seq<byte>
  // An MD5 sum. The hash is an arbitrary function throughout.
  type Digest = Bytes

  const MILLISECOND: int := 1_000_000

  lemma Associative<T>(a: seq<T>, b: seq<T>, c: seq<T>)
    ensures a + b + c == a + (b + c)
  {
  }

  lemma Advance<T>(s: seq<T>, k: nat)
    requires k < |s|
    ensures s[k..][0] == s[k] && s[k..][1..] == s[k + 1..]
  {
  }

  // `s` is what remains of `t` after deleting some elements: same elements, same order.
  ghost predicate Subsequence<T>(s: seq<T>, t: seq<T>)
    decreases |t|
  {
    if s == [] then true
    else if t == [] then false
    else if s[|s| - 1] == t[|t| - 1] then Subsequence(s[..|s| - 1], t[..|t| - 1])
    else Subsequence(s, t[..|t| - 1])
  }

  lemma {:induction false} SubsequenceDropLast<T>(s: seq<T>, t: seq<T>)
    requires s != [] && Subsequence(s, t)
    ensures Subsequence(s[..|s| - 1], t)
    decreases |t|
  {
    var s', t' := s[..|s| - 1], t[..|t| - 1];
    if s[|s| - 1] == t[|t| - 1] {
      if s' != [] && s'[|s'| - 1] == t[|t| - 1] {
        SubsequenceDropLast(s', t');
      }
    } else {
      SubsequenceDropLast(s, t');
      if s' != [] && s'[|s'| - 1] == t[|t| - 1] {
        SubsequenceDropLast(s', t');
      }
    }
  }

  lemma SubsequenceGrows<T>(s: seq<T>, t: seq<T>, x: T)
    requires Subsequence(s, t)
    ensures Subsequence(s + [x], t + [x])
    ensures Subsequence(s, t + [x])
  {
    assert (s + [x])[..|s|] == s && (t + [x])[..|t|] == t;
    if s != [] && s[|s| - 1] == x {
      SubsequenceDropLast(s, t);
    }
  }
}
