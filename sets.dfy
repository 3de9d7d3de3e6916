/** JavaScript `Set<number>` as the filer uses it: a duplicate-free sequence
    in insertion order, which is the order `forEach` and `for ... of` visit. */
module IntSets {
  /** No member appears twice. */
  predicate NoDup(s: seq<int>)
  {
    forall i, j :: 0 <= i < j < |s| ==> s[i] != s[j]
  }

  /** `set.delete(k)` on an insertion-ordered set; an absent `k` changes
      nothing (the order of the others: `RemoveKeepsOrder`). */
  function Remove(s: seq<int>, k: int): (r: seq<int>)
    ensures forall x :: x in r <==> x in s && x != k
    ensures NoDup(s) ==> NoDup(r)
    ensures k !in s ==> r == s
  {
    if s == [] then []
    else if s[0] == k then Remove(s[1..], k)
    else
      var t := Remove(s[1..], k);
      assert NoDup(s) ==> NoDup(s[1..]) && s[0] !in s[1..];
      [s[0]] + t
  }

  /** Deleting a member of a duplicate-free sequence cuts out exactly its
      position: the other members keep their order. */
  lemma {:induction false} RemoveAt(s: seq<int>, k: int, i: int)
    requires NoDup(s) && 0 <= i < |s| && s[i] == k
    ensures Remove(s, k) == s[..i] + s[i + 1..]
  {
    if i == 0 {
      assert k !in s[1..];
      assert s[..0] + s[1..] == s[1..];
    } else {
      assert s[1..][i - 1] == k && s[0] != k;
      assert NoDup(s[1..]);
      RemoveAt(s[1..], k, i - 1);
      assert s[..i] + s[i + 1..] == [s[0]] + (s[1..][..i - 1] + s[1..][i..]);
    }
  }

  /** `set.delete(k)` keeps the order of the other members. */
  lemma RemoveKeepsOrder(s: seq<int>, k: int)
    ensures NoDup(s) ==> forall i :: 0 <= i < |s| && s[i] == k ==> Remove(s, k) == s[..i] + s[i + 1..]
  {
    if NoDup(s) {
      forall i | 0 <= i < |s| && s[i] == k
        ensures Remove(s, k) == s[..i] + s[i + 1..]
      {
        RemoveAt(s, k, i);
      }
    }
  }

  /** `has(k) ? delete(k) : add(k)` on an insertion-ordered set: an added
      index goes last, a removed one is cut out of its position. */
  function Toggled(s: seq<int>, k: int): (r: seq<int>)
    ensures forall x :: x in r <==> (x in s) != (x == k)
    ensures NoDup(s) ==> NoDup(r)
    ensures k !in s ==> r == s + [k]
    ensures NoDup(s) ==> forall i :: 0 <= i < |s| && s[i] == k ==> r == s[..i] + s[i + 1..]
  {
    if k in s then RemoveKeepsOrder(s, k); Remove(s, k) else s + [k]
  }

  /** `set.add(k)` on an insertion-ordered set: a new member goes last, a
      present one stays where it is. */
  function Added(s: seq<int>, k: int): (r: seq<int>)
    ensures forall x :: x in r <==> x in s || x == k
    ensures NoDup(s) ==> NoDup(r)
    ensures |r| == if k in s then |s| else |s| + 1
    ensures r[..|s|] == s
  {
    if k in s then s else s + [k]
  }
}
