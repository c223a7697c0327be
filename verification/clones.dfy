/** The rendered card strip: the real cards followed by clones of the leading cards,
    each clone under a fresh key. */
module Clones {
  import opened JsMath

  /** A renderable card: its identity key and its opaque content. */
  datatype Item<K, C> = Item(key: K, content: C)

  /** The keys of a card sequence, in order. */
  function Keys<K, C>(items: seq<Item<K, C>>): (ks: seq<K>)
    ensures |ks| == |items|
    ensures forall i :: 0 <= i < |items| ==> ks[i] == items[i].key
  {
    seq(|items|, i requires 0 <= i < |items| => items[i].key)
  }

  /** No key occurs twice. */
  predicate Distinct<K(==)>(ks: seq<K>) {
    forall i, j :: 0 <= i < j < |ks| ==> ks[i] != ks[j]
  }

  /** The same contents under new keys, one key per card, in order. */
  function Rekey<K, C>(items: seq<Item<K, C>>, keys: seq<K>): (r: seq<Item<K, C>>)
    requires |keys| == |items|
    ensures |r| == |items|
    ensures forall i :: 0 <= i < |r| ==> r[i].key == keys[i] && r[i].content == items[i].content
    decreases |items|
  {
    if |items| == 0 then []
    else [Item(keys[0], items[0].content)] + Rekey(items[1..], keys[1..])
  }

  /** The strip the carousel renders. With at least `illusionCount` cards, the first
      `illusionCount` cards are appended again, each under the next key of the supply
      of fresh keys; with fewer cards the sequence is returned as it is. */
  function RenderChildren<K, C>(children: seq<Item<K, C>>, illusionCount: nat, freshKeys: seq<K>)
    : (r: seq<Item<K, C>>)
    requires |freshKeys| >= illusionCount
    // clones never enter the canonical sequence: the owner's cards come first, unchanged
    ensures |children| <= |r| && r[..|children|] == children
    ensures |children| < illusionCount ==> r == children
    ensures |children| >= illusionCount ==>
      && |r| == |children| + illusionCount
      && forall i :: 0 <= i < illusionCount ==>
           r[|children| + i].content == children[i].content && r[|children| + i].key == freshKeys[i]
  {
    if |children| >= illusionCount then
      children + Rekey(children[..illusionCount], freshKeys[..illusionCount])
    else
      children
  }

  /** The keys of the supply are new: pairwise distinct and none of them a key of a real card. */
  predicate FreshSupply<K(==), C>(children: seq<Item<K, C>>, freshKeys: seq<K>) {
    && Distinct(freshKeys)
    && forall i, j :: 0 <= i < |freshKeys| && 0 <= j < |children| ==> freshKeys[i] != children[j].key
  }

  /** Real cards and clones can be mounted together: when the real keys are distinct
      and the supply is fresh, no two rendered cards share a key, and every clone's key
      is outside the real cards' keys. */
  lemma RenderedKeysDistinct<K, C>(children: seq<Item<K, C>>, illusionCount: nat, freshKeys: seq<K>)
    requires |freshKeys| >= illusionCount
    requires Distinct(Keys(children))
    requires FreshSupply(children, freshKeys)
    ensures Distinct(Keys(RenderChildren(children, illusionCount, freshKeys)))
    ensures var r := RenderChildren(children, illusionCount, freshKeys);
            forall i, j :: |children| <= i < |r| && 0 <= j < |children| ==> r[i].key != children[j].key
  {
    var r := RenderChildren(children, illusionCount, freshKeys);
    var n := |children|;
    var ks := Keys(r);
    forall i, j | 0 <= i < j < |ks|
      ensures ks[i] != ks[j]
    {
      if j < n {
        assert r[i] == children[i] && r[j] == children[j];
        assert Keys(children)[i] == children[i].key;
        assert Keys(children)[j] == children[j].key;
      } else if i < n {
        assert r[i] == children[i];
        assert r[j].key == freshKeys[j - n];
      } else {
        assert r[i].key == freshKeys[i - n] && r[j].key == freshKeys[j - n];
      }
    }
  }

  /** The loop illusion: when the strip is cloned, card j of the rendered strip shows
      the content of real card j mod n, so scrolling past the last real card continues
      with the first ones. */
  lemma RenderedStripRepeatsCyclically<K, C>(children: seq<Item<K, C>>, illusionCount: nat, freshKeys: seq<K>)
    requires |freshKeys| >= illusionCount
    requires 0 < illusionCount <= |children|
    ensures var r := RenderChildren(children, illusionCount, freshKeys);
            forall j :: 0 <= j < |r| ==> r[j].content == children[j % |children|].content
  {
    var r := RenderChildren(children, illusionCount, freshKeys);
    var n := |children|;
    forall j | 0 <= j < |r|
      ensures r[j].content == children[j % n].content
    {
      if j < n {
        assert r[j] == r[..n][j];
        ModWithinOneLap(j, n);
      } else {
        ModWithinOneLap(j, n);
        assert r[n + (j - n)].content == children[j - n].content;
      }
    }
  }

  /** Within the first two laps, j mod n is j or j - n. */
  lemma ModWithinOneLap(j: int, n: int)
    requires 0 <= j < 2 * n
    ensures j < n ==> j % n == j
    ensures j >= n ==> j % n == j - n
  {
    var q, m := j / n, j % n;
    assert j == n * q + m && 0 <= m < n;
    if q < 0 {
      MulMonotone(n, q, -1);
    } else if q > 1 {
      MulMonotone(n, 2, q);
    }
  }
}
