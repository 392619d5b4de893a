/** Shared building blocks: an optional value, duplicate-freedom, and the
    first-occurrence deduplication that both the page scanner (its set of
    processed domains) and the domain index (JavaScript object key order)
    rely on. */
module Base {

  /** A value that may be absent: JavaScript's `undefined`/`null`. */
  datatype Option<+T> = None | Some(value: T) {

    /** The value, or `default` when absent (the `x ?? d` idiom). */
    function GetOr(default: T): T {
      match this
      case Some(v) => v
      case None => default
    }
  }

  /** No element occurs twice. */
  predicate NoDup<T(==)>(s: seq<T>) {
    forall i, j :: 0 <= i < j < |s| ==> s[i] != s[j]
  }

  /** Keeps the first occurrence of every element, in order: the effect of
      walking `xs` while skipping anything already recorded in a `Set`. */
  function Dedup<T(==)>(xs: seq<T>): (r: seq<T>)
    ensures NoDup(r)
    ensures forall i :: 0 <= i < |r| ==> r[i] in xs
    ensures forall i :: 0 <= i < |xs| ==> xs[i] in r
    ensures |r| <= |xs|
  {
    if |xs| == 0 then []
    else
      var p := Dedup(xs[..|xs| - 1]);
      var x := xs[|xs| - 1];
      assert xs == xs[..|xs| - 1] + [x];
      if x in p then p else p + [x]
  }

  /** Deduplicating one more element extends the previous result by that
      element exactly when it has not been seen. */
  lemma DedupSnoc<T>(xs: seq<T>, x: T)
    ensures Dedup(xs + [x]) == if x in Dedup(xs) then Dedup(xs) else Dedup(xs) + [x]
  {
    assert (xs + [x])[..|xs + [x]| - 1] == xs;
  }

  /** Elements seen first keep their place: deduplicating a longer input only
      appends, and everything appended is new and comes from the extension. */
  lemma {:induction false} DedupAppend<T>(xs: seq<T>, ys: seq<T>)
    ensures Dedup(xs) <= Dedup(xs + ys)
    ensures forall i :: |Dedup(xs)| <= i < |Dedup(xs + ys)| ==>
              Dedup(xs + ys)[i] !in xs && Dedup(xs + ys)[i] in ys
  {
    if |ys| == 0 {
      assert xs + ys == xs;
    } else {
      var ys' := ys[..|ys| - 1];
      var y := ys[|ys| - 1];
      var p, q := Dedup(xs), Dedup(xs + ys');
      DedupAppend(xs, ys');
      assert xs + ys == (xs + ys') + [y];
      DedupSnoc(xs + ys', y);
      var r := Dedup(xs + ys);
      assert r == if y in q then q else q + [y];
      assert q <= r;
      forall i | |p| <= i < |r| ensures r[i] !in xs && r[i] in ys {
        if i < |q| {
          assert r[i] == q[i];
          assert q[i] in ys';
        } else {
          assert r[i] == y;
          assert y !in q;
          assert forall k :: 0 <= k < |xs| ==> xs[k] in q by {
            forall k | 0 <= k < |xs| ensures xs[k] in q {
              assert xs[k] == (xs + ys')[k];
            }
          }
        }
      }
    }
  }

  /** Applies `f` to every element, keeping the order. */
  function MapSeq<A, B>(f: A -> B, xs: seq<A>): (r: seq<B>)
    ensures |r| == |xs|
    ensures forall k :: 0 <= k < |xs| ==> r[k] == f(xs[k])
  {
    seq(|xs|, k requires 0 <= k < |xs| => f(xs[k]))
  }

  lemma MapSeqAppend<A, B>(f: A -> B, xs: seq<A>, ys: seq<A>)
    ensures MapSeq(f, xs + ys) == MapSeq(f, xs) + MapSeq(f, ys)
  {
  }

  /** Duplicate-freedom is a property of the multiset of elements, so it
      survives any permutation. */
  lemma {:induction false} NoDupMultiset<T>(s: seq<T>)
    ensures NoDup(s) <==> forall x :: multiset(s)[x] <= 1
  {
    if |s| > 0 {
      var t := s[1..];
      NoDupMultiset(t);
      assert s == [s[0]] + t;
      assert multiset(s) == multiset{s[0]} + multiset(t);
      assert NoDup(s) <==> s[0] !in t && NoDup(t) by {
        if s[0] !in t && NoDup(t) {
          forall i, j | 0 <= i < j < |s| ensures s[i] != s[j] {
            assert s[j] == t[j - 1];
            if i > 0 {
              assert s[i] == t[i - 1];
            }
          }
        }
        if NoDup(s) {
          forall i, j | 0 <= i < j < |t| ensures t[i] != t[j] {
            assert t[i] == s[i + 1] && t[j] == s[j + 1];
          }
          forall k | 0 <= k < |t| ensures t[k] != s[0] {
            assert t[k] == s[k + 1];
          }
        }
      }
      assert (forall x :: multiset(s)[x] <= 1) <==>
             (s[0] !in t && forall x :: multiset(t)[x] <= 1) by {
        if forall x :: multiset(s)[x] <= 1 {
          assert multiset(s)[s[0]] == 1 + multiset(t)[s[0]];
          forall x ensures multiset(t)[x] <= 1 {
            assert multiset(t)[x] <= multiset(s)[x];
          }
        }
        if s[0] !in t && forall x :: multiset(t)[x] <= 1 {
          forall x ensures multiset(s)[x] <= 1 {
            if x == s[0] {
              assert multiset(t)[x] == 0;
            }
          }
        }
      }
    }
  }

  lemma NoDupPermutation<T>(a: seq<T>, b: seq<T>)
    requires multiset(a) == multiset(b)
    requires NoDup(a)
    ensures NoDup(b)
  {
    NoDupMultiset(a);
    NoDupMultiset(b);
  }

  /** Duplicate-free sequences with the same elements are permutations of
      each other. */
  lemma NoDupSameElements<T>(a: seq<T>, b: seq<T>)
    requires NoDup(a) && NoDup(b)
    requires forall x :: x in a <==> x in b
    ensures multiset(a) == multiset(b)
  {
    NoDupMultiset(a);
    NoDupMultiset(b);
    forall x ensures multiset(a)[x] == multiset(b)[x] {
      assert x in a <==> x in multiset(a);
      assert x in b <==> x in multiset(b);
    }
  }

  /** The elements of a sequence, as a set. */
  function Elems<T>(s: seq<T>): set<T> {
    set x | x in s
  }

  lemma ElemsSnoc<T>(s: seq<T>, x: T)
    ensures Elems(s + [x]) == Elems(s) + {x}
  {
  }

  /** Extending a prefix of `ys` by one element. */
  lemma PrefixSnoc<T>(xs: seq<T>, ys: seq<T>, k: nat)
    requires k < |ys|
    ensures xs + ys[..k + 1] == (xs + ys[..k]) + [ys[k]]
  {
    assert ys[..k + 1] == ys[..k] + [ys[k]];
  }
}
