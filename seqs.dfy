/** Generic sequence queries: the `find`, `filter`, `includes` and
    counting idioms that both the backend (first matching document) and the
    front end (Array.prototype.find / filter) rely on. */
module Seqs {

  datatype Option<+T> = None | Some(value: T) {
    function GetOr(default: T): T {
      match this
      case Some(v) => v
      case None => default
    }
  }

  /** Index of the first element satisfying `p`, as `find`/`find_one` return it. */
  function FirstIndex<T>(s: seq<T>, p: T -> bool): (r: Option<nat>)
    ensures r.Some? ==> r.value < |s| && p(s[r.value])
    ensures r.Some? ==> forall j :: 0 <= j < r.value ==> !p(s[j])
    ensures r.None? <==> forall j :: 0 <= j < |s| ==> !p(s[j])
  {
    if s == [] then None
    else if p(s[0]) then Some(0)
    else
      match FirstIndex(s[1..], p)
      case None => None
      case Some(k) => Some(k + 1)
  }

  /** The first element satisfying `p`, if any. */
  function Find<T>(s: seq<T>, p: T -> bool): (r: Option<T>)
    ensures r.None? <==> forall j :: 0 <= j < |s| ==> !p(s[j])
    ensures r.Some? ==> exists k :: 0 <= k < |s| && s[k] == r.value && p(s[k]) &&
                                    forall j :: 0 <= j < k ==> !p(s[j])
  {
    match FirstIndex(s, p)
    case None => None
    case Some(k) => Some(s[k])
  }

  /** The elements satisfying `p`, in their original order. */
  function Filter<T>(s: seq<T>, p: T -> bool): (r: seq<T>)
    ensures |r| <= |s|
    ensures forall x :: x in r ==> x in s && p(x)
    ensures forall x :: x in s && p(x) ==> x in r
  {
    if s == [] then []
    else if p(s[0]) then [s[0]] + Filter(s[1..], p)
    else Filter(s[1..], p)
  }

  /** Number of elements satisfying `p`: `filter(p).length`, `count_documents`. */
  function Count<T>(s: seq<T>, p: T -> bool): (r: nat)
    ensures r <= |s|
    ensures r == 0 <==> forall j :: 0 <= j < |s| ==> !p(s[j])
    ensures r == |s| <==> forall j :: 0 <= j < |s| ==> p(s[j])
  {
    if s == [] then 0
    else (if p(s[0]) then 1 else 0) + Count(s[1..], p)
  }

  lemma {:induction false} FilterCount<T>(s: seq<T>, p: T -> bool)
    ensures |Filter(s, p)| == Count(s, p)
  {
    if s != [] {
      FilterCount(s[1..], p);
    }
  }

  /** Keeping every element is the identity. */
  lemma {:induction false} FilterAll<T>(s: seq<T>, p: T -> bool)
    requires forall x :: x in s ==> p(x)
    ensures Filter(s, p) == s
  {
    if s != [] {
      assert s == [s[0]] + s[1..];
      FilterAll(s[1..], p);
    }
  }

  lemma {:induction false} CountAppend<T>(s: seq<T>, x: T, p: T -> bool)
    ensures Count(s + [x], p) == Count(s, p) + (if p(x) then 1 else 0)
  {
    if s == [] {
      assert [x][1..] == [];
    } else {
      assert (s + [x])[1..] == s[1..] + [x];
      CountAppend(s[1..], x, p);
    }
  }

  /** Counting by a weaker predicate never gives less. */
  lemma {:induction false} CountMono<T>(s: seq<T>, p: T -> bool, q: T -> bool)
    requires forall x :: p(x) ==> q(x)
    ensures Count(s, p) <= Count(s, q)
  {
    if s != [] {
      CountMono(s[1..], p, q);
    }
  }

  /** Counting by a disjunction of disjoint predicates adds the counts. */
  lemma {:induction false} CountDisjoint<T>(s: seq<T>, p: T -> bool, q: T -> bool, pq: T -> bool)
    requires forall x :: pq(x) == (p(x) || q(x))
    requires forall x :: !(p(x) && q(x))
    ensures Count(s, pq) == Count(s, p) + Count(s, q)
  {
    if s != [] {
      CountDisjoint(s[1..], p, q, pq);
    }
  }

  /** A match appended after a prefix with no match is the first match. */
  lemma {:induction false} FirstIndexAppend<T>(s: seq<T>, x: T, p: T -> bool)
    requires FirstIndex(s, p).None?
    requires p(x)
    ensures FirstIndex(s + [x], p) == Some(|s|)
  {
    assert (s + [x])[|s|] == x;
    assert forall j :: 0 <= j < |s| ==> (s + [x])[j] == s[j];
  }

  /** Appending never changes an existing first match. */
  lemma {:induction false} FirstIndexAppendKeeps<T>(s: seq<T>, x: T, p: T -> bool)
    requires FirstIndex(s, p).Some?
    ensures FirstIndex(s + [x], p) == FirstIndex(s, p)
  {
    assert forall j :: 0 <= j < |s| ==> (s + [x])[j] == s[j];
  }

  /** Replacing the first match by another matching element keeps it first. */
  lemma {:induction false} FirstIndexUpdate<T>(s: seq<T>, i: nat, y: T, p: T -> bool)
    requires i < |s|
    requires FirstIndex(s, p) == Some(i)
    requires p(y)
    ensures FirstIndex(s[i := y], p) == Some(i)
  {
    assert s[i := y][i] == y;
  }

  /** Filtering distributes over appending one element. */
  lemma {:induction false} FilterSnoc<T>(s: seq<T>, x: T, p: T -> bool)
    ensures Filter(s + [x], p) == Filter(s, p) + (if p(x) then [x] else [])
  {
    if s == [] {
      assert [x][1..] == [];
    } else {
      assert (s + [x])[1..] == s[1..] + [x];
      FilterSnoc(s[1..], x, p);
    }
  }
}
