/** Optional values: Python's `None` versus a present value. */
module Options {

  datatype Option<+T> = None | Some(value: T)

  /** The first present value of a sequence, or None when all are absent. */
  function FirstSome<T>(xs: seq<Option<T>>): (r: Option<T>)
    ensures r.None? <==> forall k :: 0 <= k < |xs| ==> xs[k].None?
    ensures forall k :: 0 <= k < |xs| && xs[k].Some? && (forall j :: 0 <= j < k ==> xs[j].None?) ==> r == xs[k]
  {
    if |xs| == 0 then None
    else if xs[0].Some? then xs[0]
    else
      var r := FirstSome(xs[1..]);
      assert forall k :: 0 < k < |xs| ==> xs[1..][k - 1] == xs[k];
      r
  }

  /** The positions of the present values, in increasing order: every
      present value's position, and no other. */
  function SomeIndexes<T>(xs: seq<Option<T>>): (ix: seq<nat>)
    ensures |ix| <= |xs|
    ensures forall j :: 0 <= j < |ix| ==> ix[j] < |xs| && xs[ix[j]].Some?
    ensures forall a, b :: 0 <= a < b < |ix| ==> ix[a] < ix[b]
    ensures forall j :: 0 <= j < |ix| ==> j <= ix[j]
    ensures forall k :: 0 <= k < |xs| && xs[k].Some? ==> k in ix
    decreases |xs|
  {
    if |xs| == 0 then []
    else
      var init := xs[..|xs| - 1];
      var rest := SomeIndexes(init);
      assert forall j :: 0 <= j < |rest| ==> xs[rest[j]] == init[rest[j]];
      assert forall k :: 0 <= k < |init| ==> xs[k] == init[k];
      if xs[|xs| - 1].Some? then rest + [|xs| - 1] else rest
  }

  /** The present values of a sequence, in order (`[x for x in xs if x is
      not None]`): the j-th of them is the value at the j-th position that
      holds one. */
  function Somes<T>(xs: seq<Option<T>>): (r: seq<T>)
    ensures |r| == |SomeIndexes(xs)|
    ensures forall j :: 0 <= j < |r| ==> xs[SomeIndexes(xs)[j]] == Some(r[j])
    decreases |xs|
  {
    if |xs| == 0 then []
    else
      var init := xs[..|xs| - 1];
      var rest := Somes(init);
      assert forall j :: 0 <= j < |rest| ==> xs[SomeIndexes(init)[j]] == init[SomeIndexes(init)[j]];
      if xs[|xs| - 1].Some? then rest + [xs[|xs| - 1].value] else rest
  }

  /** A value is present in the filtered sequence exactly when some position
      of the sequence holds it. */
  lemma SomesMembers<T>(xs: seq<Option<T>>, x: T)
    ensures x in Somes(xs) <==> Some(x) in xs
  {
    var r, ix := Somes(xs), SomeIndexes(xs);
    if x in r {
      var j :| 0 <= j < |r| && r[j] == x;
      assert xs[ix[j]] == Some(x);
    }
    if Some(x) in xs {
      var k :| 0 <= k < |xs| && xs[k] == Some(x);
      var j :| 0 <= j < |ix| && ix[j] == k;
      assert r[j] == x;
    }
  }

  lemma SomesOne<T>(x: Option<T>)
    ensures Somes([x]) == if x.Some? then [x.value] else []
  {
    assert [x][..0] == [];
  }

  /** Filtering distributes over concatenation. */
  lemma {:induction false} SomesAppend<T>(a: seq<Option<T>>, b: seq<Option<T>>)
    ensures Somes(a + b) == Somes(a) + Somes(b)
    decreases |b|
  {
    if |b| == 0 {
      assert a + b == a;
    } else {
      var init := b[..|b| - 1];
      assert (a + b)[..|a + b| - 1] == a + init;
      SomesAppend(a, init);
    }
  }
}
