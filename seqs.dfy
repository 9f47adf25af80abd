/** Facts about sequence slicing and concatenation, stated once so that the larger
    proofs can cite them instead of rediscovering them. */
module Seqs {

  lemma SplitLast<T>(s: seq<T>)
    requires s != []
    ensures s == s[..|s| - 1] + [s[|s| - 1]]
  {
  }

  lemma Snoc<T>(s: seq<T>, x: T)
    ensures (s + [x])[..|s|] == s && (s + [x])[|s|] == x && |s + [x]| == |s| + 1
  {
  }

  lemma SnocTail<T>(s: seq<T>, x: T)
    requires s != []
    ensures (s + [x])[1..] == s[1..] + [x]
  {
  }

  /** If `before` holds exactly the values related to an element of `init`, and `extra` exactly
      those related to `last`, then `before + extra` holds exactly those related to an element
      of `init + [last]`. */
  lemma RelatedSnoc<T, U>(rel: (T, U) -> bool, init: seq<U>, last: U, before: seq<T>, extra: seq<T>)
    requires forall t :: t in before <==> exists u | u in init :: rel(t, u)
    requires forall t :: t in extra <==> rel(t, last)
    ensures forall t :: t in before + extra <==> exists u | u in init + [last] :: rel(t, u)
  {
    forall t
      ensures t in before + extra <==> exists u | u in init + [last] :: rel(t, u)
    {
      if t in before {
        var u :| u in init && rel(t, u);
        assert u in init + [last];
      } else if t in extra {
        assert last in init + [last];
      } else if u :| u in init + [last] && rel(t, u) {
        assert u in init || u == last;
      }
    }
  }

  lemma PrefixSnoc<T>(s: seq<T>, i: nat)
    requires i < |s|
    ensures s[..i + 1] == s[..i] + [s[i]]
  {
  }

  lemma AppendToEmpty<T>(s: seq<T>, t: seq<T>)
    requires s == []
    ensures s + t == t
  {
  }

  lemma AppendEmpty<T>(s: seq<T>, t: seq<T>)
    requires t == []
    ensures s + t == s
  {
  }

  lemma Assoc<T>(a: seq<T>, b: seq<T>, c: seq<T>)
    ensures (a + b) + c == a + (b + c)
  {
  }

  lemma TakeDrop<T>(s: seq<T>, k: nat)
    requires k <= |s|
    ensures s == s[..k] + s[k..]
  {
  }

  lemma ThreeCut<T>(s: seq<T>, i: nat, j: nat)
    requires i <= j <= |s|
    ensures s == (s[..i] + s[i..j]) + s[j..]
  {
  }

  lemma ThreeParts<T>(s: seq<T>, e: nat)
    requires 1 <= e <= |s|
    ensures s == [s[0]] + s[1..e] + s[e..]
  {
  }
}
