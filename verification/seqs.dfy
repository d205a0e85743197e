/** Generic facts about sequences used by the traversal models. */
module Seqs {

  /** The blocks of `blocks`, concatenated in order. */
  function Flatten<T>(blocks: seq<seq<T>>): seq<T>
  {
    if |blocks| == 0 then [] else blocks[0] + Flatten(blocks[1..])
  }

  /** No element occurs twice. */
  predicate NoDup<T(==)>(s: seq<T>)
  {
    forall i, j :: 0 <= i < j < |s| ==> s[i] != s[j]
  }

  /** The set of elements of a sequence. */
  ghost function Elements<T>(s: seq<T>): set<T>
  {
    set x | x in s
  }

  /** Blocks of one common length `m` flatten to `|blocks| * m` elements. */
  lemma {:induction false} FlattenLength<T>(blocks: seq<seq<T>>, m: nat)
    requires forall i :: 0 <= i < |blocks| ==> |blocks[i]| == m
    ensures |Flatten(blocks)| == |blocks| * m
  {
    if |blocks| > 0 {
      FlattenLength(blocks[1..], m);
      MulSucc(|blocks| - 1, m);
    }
  }

  /** Blocks of one common length `m` are laid out back to back:
      element `k` of block `i` sits at position `i * m + k`. */
  lemma {:induction false} FlattenUniform<T>(blocks: seq<seq<T>>, m: nat, i: nat, k: nat)
    requires forall b :: 0 <= b < |blocks| ==> |blocks[b]| == m
    requires i < |blocks| && k < m
    ensures i * m + k < |Flatten(blocks)|
    ensures Flatten(blocks)[i * m + k] == blocks[i][k]
  {
    FlattenLength(blocks, m);
    MulLess(i, |blocks|, m, k);
    if i > 0 {
      var rest := blocks[1..];
      FlattenUniform(rest, m, i - 1, k);
      MulSucc(i - 1, m);
      assert Flatten(blocks) == blocks[0] + Flatten(rest);
    }
  }

  lemma MulLess(i: nat, n: nat, m: nat, k: nat)
    requires i < n && k < m
    ensures i * m + k < n * m
  {
    assert (i + 1) * m <= n * m;
  }

  lemma MulSucc(a: nat, m: nat)
    ensures (a + 1) * m == a * m + m
  {
  }

  /** Two duplicate-free sequences with no element in common concatenate
      to a duplicate-free sequence. */
  lemma NoDupConcat<T>(a: seq<T>, b: seq<T>)
    requires NoDup(a) && NoDup(b)
    requires forall x :: x in a ==> x !in b
    ensures NoDup(a + b)
  {
    forall i, j | 0 <= i < j < |a + b|
      ensures (a + b)[i] != (a + b)[j]
    {
      if i < |a| && j >= |a| {
        assert (a + b)[i] in a;
        assert (a + b)[j] == b[j - |a|];
      }
    }
  }

  /** A duplicate-free sequence has as many elements as its set. */
  lemma {:induction false} NoDupCardinality<T>(s: seq<T>)
    requires NoDup(s)
    ensures |Elements(s)| == |s|
  {
    if |s| > 0 {
      var t := s[1..];
      assert NoDup(t) by {
        forall i, j | 0 <= i < j < |t| ensures t[i] != t[j] {
          assert t[i] == s[i + 1] && t[j] == s[j + 1];
        }
      }
      NoDupCardinality(t);
      assert s[0] !in t by {
        forall j | 0 <= j < |t| ensures t[j] != s[0] {
          assert t[j] == s[j + 1];
        }
      }
      assert Elements(s) == {s[0]} + Elements(t) by {
        assert s == [s[0]] + t;
      }
    }
  }
}
