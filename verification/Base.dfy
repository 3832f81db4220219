/**
 Vocabulary shared by every module: byte strings, commands and options.
 A byte is written as a `char`; every statement quantifies over all characters
 and so covers the 256 byte values.
 */
module Base {
  type Bytes = string

  /** One command as argv, for example ["SET", "key", "value"]. */
  type Command = seq<Bytes>

  datatype Option<+T> = None | Some(value: T)

  const CRLF: Bytes := "\r\n"

  const I64_MIN: int := -0x8000_0000_0000_0000
  const I64_MAX: int := 0x7fff_ffff_ffff_ffff

  predicate InI64(n: int) {
    I64_MIN <= n <= I64_MAX
  }

  /** Concatenation of a list of byte strings. */
  function Flatten(parts: seq<Bytes>): Bytes {
    if parts == [] then [] else parts[0] + Flatten(parts[1..])
  }

  lemma {:induction false} FlattenAppend(a: seq<Bytes>, b: seq<Bytes>)
    ensures Flatten(a + b) == Flatten(a) + Flatten(b)
  {
    if a == [] {
      assert a + b == b;
    } else {
      assert (a + b)[1..] == a[1..] + b;
      FlattenAppend(a[1..], b);
    }
  }

  lemma AppendAssoc<T>(a: seq<T>, b: seq<T>, c: seq<T>)
    ensures (a + b) + c == a + (b + c)
  {
  }

  /** The part of a prefix of `a + b` that lies beyond `a` is a prefix of `b`. */
  lemma PrefixBeyond<T>(a: seq<T>, b: seq<T>, p: seq<T>)
    requires p <= a + b && |a| <= |p|
    ensures p == a + p[|a|..] && p[|a|..] <= b
    ensures p == a + b <==> p[|a|..] == b
  {
  }

  /** A prefix of `a + b` no longer than `a` is a prefix of `a`. */
  lemma PrefixWithin<T>(a: seq<T>, b: seq<T>, p: seq<T>)
    requires p <= a + b && |p| <= |a|
    ensures p <= a
  {
  }

  lemma PrefixSameLength<T>(p: seq<T>, a: seq<T>)
    requires p <= a && |p| == |a|
    ensures p == a
  {
  }

  /** No element occurs twice. */
  predicate Distinct<T(==)>(s: seq<T>) {
    forall i, j :: 0 <= i < j < |s| ==> s[i] != s[j]
  }

  lemma DistinctCons<T>(x: T, s: seq<T>)
    ensures Distinct([x] + s) <==> x !in s && Distinct(s)
  {
    if Distinct([x] + s) {
      forall i, j | 0 <= i < j < |s|
        ensures s[i] != s[j]
      {
        assert ([x] + s)[i + 1] != ([x] + s)[j + 1];
      }
      forall j | 0 <= j < |s|
        ensures s[j] != x
      {
        assert ([x] + s)[0] != ([x] + s)[j + 1];
      }
    }
  }
}
