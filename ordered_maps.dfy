/**
 * PHP's array with string keys: an ordered map in which every key occurs once, a new key is
 * appended at the end and assigning to an existing key keeps that key's position.
 * Headers, caller properties and the subscription registry are all of this kind.
 */
module OrderedMaps {
  import opened Wrappers
  import opened Sequences

  ghost predicate UniqueKeys<V>(m: seq<(string, V)>)
  {
    forall i, j :: 0 <= i < j < |m| ==> m[i].0 != m[j].0
  }

  type OrderedMap<V> = m: seq<(string, V)> | UniqueKeys(m) witness []

  /** The keys in insertion order. */
  function Keys<V>(m: seq<(string, V)>): (ks: seq<string>)
    ensures |ks| == |m|
    ensures forall i :: 0 <= i < |m| ==> ks[i] == m[i].0
  {
    if m == [] then [] else [m[0].0] + Keys(m[1..])
  }

  /** $m[$k] when isset, None when the key is absent. */
  function Get<V>(m: OrderedMap<V>, k: string): (r: Option<V>)
    ensures r.None? <==> k !in Keys(m)
    ensures forall i :: 0 <= i < |m| && m[i].0 == k ==> r == Some(m[i].1)
  {
    if m == [] then None
    else if m[0].0 == k then Some(m[0].1)
    else
      var rest: OrderedMap<V> := m[1..];
      assert Keys(m) == [m[0].0] + Keys(rest);
      Get(rest, k)
  }

  /** $m[$k] = $v */
  function Put<V>(m: OrderedMap<V>, k: string, v: V): (r: OrderedMap<V>)
    ensures Get(r, k) == Some(v)
    ensures forall k' :: k' != k ==> Get(r, k') == Get(m, k')
    ensures Keys(r) == if k in Keys(m) then Keys(m) else Keys(m) + [k]
    ensures k !in Keys(m) ==> r == m + [(k, v)]
  {
    if k in Keys(m) then
      var r := seq(|m|, i requires 0 <= i < |m| => if m[i].0 == k then (k, v) else m[i]);
      assert Keys(r) == Keys(m);
      assert UniqueKeys(r);
      r
    else
      var r := m + [(k, v)];
      assert Keys(r) == Keys(m) + [k];
      forall k' | k' != k
        ensures Get(r, k') == Get(m, k')
      {
        GetAppended(m, k, v, k');
      }
      r
  }

  /** Appending a new key leaves the lookup of every other key as it was. */
  lemma GetAppended<V>(m: OrderedMap<V>, k: string, v: V, k': string)
    requires k !in Keys(m) && k' != k
    ensures UniqueKeys(m + [(k, v)])
    ensures Get(m + [(k, v)], k') == Get(m, k')
  {
    var r: seq<(string, V)> := m + [(k, v)];
    assert Keys(r) == Keys(m) + [k];
    assert UniqueKeys(r);
    if k' in Keys(m) {
      var i :| 0 <= i < |m| && Keys(m)[i] == k';
      assert r[i] == m[i];
    }
  }

  /** unset($m[$k]) */
  function Delete<V>(m: OrderedMap<V>, k: string): (r: OrderedMap<V>)
    ensures Get(r, k) == None
    ensures forall k' :: k' != k ==> Get(r, k') == Get(m, k')
    ensures k !in Keys(m) ==> r == m
    ensures forall x :: x in Keys(r) ==> x in Keys(m)
  {
    if m == [] then []
    else
      var rest: OrderedMap<V> := m[1..];
      assert Keys(m) == [m[0].0] + Keys(rest);
      if m[0].0 == k then rest
      else
        var tail := Delete(rest, k);
        var r := [m[0]] + tail;
        assert m[0].0 !in Keys(rest);
        assert m[0].0 !in Keys(tail);
        assert Keys(r) == [m[0].0] + Keys(tail);
        assert UniqueKeys(r);
        r
  }

  /** unset removes the key's one entry and keeps the others in their order. */
  lemma {:induction false} DeleteKeepsOrder<V>(m: OrderedMap<V>, k: string)
    requires k in Keys(m)
    ensures exists i :: 0 <= i < |m| && m[i].0 == k && Delete(m, k) == m[..i] + m[i + 1..]
  {
    var rest: OrderedMap<V> := m[1..];
    assert Keys(m) == [m[0].0] + Keys(rest);
    if m[0].0 == k {
      assert Delete(m, k) == m[..0] + m[1..];
    } else {
      DeleteKeepsOrder(rest, k);
      var j :| 0 <= j < |rest| && rest[j].0 == k && Delete(rest, k) == rest[..j] + rest[j + 1..];
      DeleteStep(m, k);
      RemoveAfterHead(m, j);
      assert m[j + 1].0 == k && Delete(m, k) == m[..j + 1] + m[j + 2..];
    }
  }

  lemma DeleteStep<V>(m: OrderedMap<V>, k: string)
    requires m != [] && m[0].0 != k
    ensures Delete(m, k) == [m[0]] + Delete(m[1..], k)
  {
  }

  /** No later entry of `pairs` assigns the key of entry `i` again. */
  ghost predicate LastAssignment<V>(pairs: seq<(string, V)>, i: nat)
    requires i < |pairs|
  {
    forall j :: i < j < |pairs| ==> pairs[j].0 != pairs[i].0
  }

  /**
   * foreach ($pairs as [$k, $v]) $m[$k] = $v; -- also array_merge($m, $src) when every key is a string.
   * A key that occurs in `pairs` ends up with the value of its last occurrence.
   */
  function PutAll<V>(m: OrderedMap<V>, pairs: seq<(string, V)>): (r: OrderedMap<V>)
    ensures forall k :: k !in Keys(pairs) ==> Get(r, k) == Get(m, k)
    ensures forall i :: 0 <= i < |pairs| && LastAssignment(pairs, i) ==> Get(r, pairs[i].0) == Some(pairs[i].1)
    decreases |pairs|
  {
    if pairs == [] then m
    else
      var rest := pairs[1..];
      assert Keys(pairs) == [pairs[0].0] + Keys(rest);
      var r := PutAll(Put(m, pairs[0].0, pairs[0].1), rest);
      forall i | 0 <= i < |pairs| && LastAssignment(pairs, i)
        ensures Get(r, pairs[i].0) == Some(pairs[i].1)
      {
        LastAssignmentKept(pairs, i, Put(m, pairs[0].0, pairs[0].1), r);
      }
      r
  }

  /** The last assignment to a key survives the assignments after the first entry of `pairs`. */
  lemma LastAssignmentKept<V>(pairs: seq<(string, V)>, i: nat, m: OrderedMap<V>, r: OrderedMap<V>)
    requires i < |pairs| && LastAssignment(pairs, i)
    requires Get(m, pairs[0].0) == Some(pairs[0].1)
    requires forall k :: k !in Keys(pairs[1..]) ==> Get(r, k) == Get(m, k)
    requires forall j :: 0 <= j < |pairs| - 1 && LastAssignment(pairs[1..], j) ==> Get(r, pairs[j + 1].0) == Some(pairs[j + 1].1)
    ensures Get(r, pairs[i].0) == Some(pairs[i].1)
  {
    var rest := pairs[1..];
    if i == 0 {
      assert forall j :: 0 <= j < |rest| ==> Keys(rest)[j] == pairs[j + 1].0;
      assert pairs[0].0 !in Keys(rest);
    } else {
      assert LastAssignment(rest, i - 1);
    }
  }

  /** Assigning the entries of a map overrides exactly the keys it holds. */
  lemma PutAllOverrides<V>(m: OrderedMap<V>, src: OrderedMap<V>)
    ensures forall k :: Get(PutAll(m, src), k) == if k in Keys(src) then Get(src, k) else Get(m, k)
  {
    forall k | k in Keys(src) ensures Get(PutAll(m, src), k) == Get(src, k) {
      var i :| 0 <= i < |src| && Keys(src)[i] == k;
    }
  }

  lemma {:induction false} PutAllSnoc<V>(m: OrderedMap<V>, pairs: seq<(string, V)>, p: (string, V))
    ensures PutAll(m, pairs + [p]) == Put(PutAll(m, pairs), p.0, p.1)
    decreases |pairs|
  {
    if pairs == [] {
      assert pairs + [p] == [p];
    } else {
      assert (pairs + [p])[1..] == pairs[1..] + [p];
      PutAllSnoc(Put(m, pairs[0].0, pairs[0].1), pairs[1..], p);
    }
  }

  lemma PutAllCons<V>(m: OrderedMap<V>, p: (string, V), pairs: seq<(string, V)>)
    ensures PutAll(m, [p] + pairs) == PutAll(Put(m, p.0, p.1), pairs)
  {
    assert ([p] + pairs)[1..] == pairs;
  }

  /** Replaying every entry of a map into an empty one rebuilds it exactly, order included. */
  lemma {:induction false} ReplayRebuilds<V>(src: OrderedMap<V>)
    ensures PutAll([], src) == src
    decreases |src|
  {
    if src != [] {
      var init: OrderedMap<V> := src[..|src| - 1];
      var last := src[|src| - 1];
      assert src == init + [last];
      PutAllSnoc([], init, last);
      ReplayRebuilds(init);
      assert last.0 !in Keys(init);
    }
  }

  /** Unsubscribing and then subscribing again leaves one entry, holding the latest value. */
  lemma DeleteThenPut<V>(m: OrderedMap<V>, k: string, v: V)
    ensures Get(Put(Delete(m, k), k, v), k) == Some(v)
    ensures |Put(Delete(m, k), k, v)| == (if k in Keys(m) then |m| else |m| + 1)
    ensures forall i :: 0 <= i < |Put(Delete(m, k), k, v)| - 1 ==> Put(Delete(m, k), k, v)[i].0 != k
  {
    var d := Delete(m, k);
    DeleteLength(m, k);
    assert k !in Keys(d);
    assert Put(d, k, v) == d + [(k, v)];
  }

  lemma {:induction false} DeleteLength<V>(m: OrderedMap<V>, k: string)
    ensures |Delete(m, k)| == (if k in Keys(m) then |m| - 1 else |m|)
  {
    if m != [] {
      var rest: OrderedMap<V> := m[1..];
      assert Keys(m) == [m[0].0] + Keys(rest);
      if m[0].0 == k {
        assert k !in Keys(rest);
      } else {
        DeleteLength(rest, k);
      }
    }
  }
}
