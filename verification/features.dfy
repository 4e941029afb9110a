/** The included features of a plan page (get_meritage_page.py:397-427):
    every non-blank list item of the feature sections becomes a feature,
    and a running counter spreads the features over four section indexes,
    about a quarter of all items each. */
module Features {
  import opened Options
  import opened Patterns
  import opened Text

  /** A feature section: the texts of the items of its first list, or None
      when it has no list. */
  datatype Section = NoList | List(items: seq<string>)

  datatype Feature = Feature(description: string, sectionIndex: nat)

  /** Every list item of every section, blank ones included. */
  function TotalItems(sections: seq<Section>): nat {
    if |sections| == 0 then 0
    else (if sections[0].List? then |sections[0].items| else 0) + TotalItems(sections[1..])
  }

  /** `total // 4 if total > 0 else 0` */
  function PerSection(total: nat): nat {
    if total > 0 then total / 4 else 0
  }

  /** The stripped texts of the items that are not blank, in order. */
  function ItemDescriptions(items: seq<string>): (ds: seq<string>)
    ensures |ds| <= |items|
    ensures forall k :: 0 <= k < |ds| ==> ds[k] != []
  {
    if |items| == 0 then []
    else
      var t := Strip(items[0]);
      (if t != [] then [t] else []) + ItemDescriptions(items[1..])
  }

  /** The descriptions of all features, section after section. */
  function Descriptions(sections: seq<Section>): (ds: seq<string>)
    ensures |ds| <= TotalItems(sections)
    ensures forall k :: 0 <= k < |ds| ==> ds[k] != []
  {
    if |sections| == 0 then []
    else (if sections[0].List? then ItemDescriptions(sections[0].items) else []) + Descriptions(sections[1..])
  }

  /** The description one item gives: its stripped text, unless blank. */
  function ItemDescription(t: string): (r: Option<string>)
    ensures r.None? <==> AllSpace(t)
  {
    if Strip(t) != [] then Some(Strip(t)) else None
  }

  function PerItem(items: seq<string>): (r: seq<Option<string>>)
    ensures |r| == |items| && forall k :: 0 <= k < |items| ==> r[k] == ItemDescription(items[k])
  {
    seq(|items|, k requires 0 <= k < |items| => ItemDescription(items[k]))
  }

  /** Every list item of every section, in order, blank ones included. */
  function AllItems(sections: seq<Section>): seq<string> {
    if |sections| == 0 then []
    else (if sections[0].List? then sections[0].items else []) + AllItems(sections[1..])
  }

  lemma PerItemCons(items: seq<string>)
    requires |items| > 0
    ensures PerItem(items) == [ItemDescription(items[0])] + PerItem(items[1..])
  {
    var a, b := PerItem(items), [ItemDescription(items[0])] + PerItem(items[1..]);
    assert |a| == |b|;
    forall k | 0 <= k < |a| ensures a[k] == b[k] {
      if k > 0 {
        assert b[k] == PerItem(items[1..])[k - 1];
      }
    }
  }

  lemma PerItemAppend(a: seq<string>, b: seq<string>)
    ensures PerItem(a + b) == PerItem(a) + PerItem(b)
  {
    var l, r := PerItem(a + b), PerItem(a) + PerItem(b);
    assert |l| == |r|;
    forall k | 0 <= k < |l| ensures l[k] == r[k] {
      if k >= |a| {
        assert r[k] == PerItem(b)[k - |a|];
      }
    }
  }

  /** The descriptions of one list are the stripped texts of its non-blank
      items, in order. */
  lemma {:induction false} ItemDescriptionsAre(items: seq<string>)
    ensures ItemDescriptions(items) == Somes(PerItem(items))
  {
    if |items| > 0 {
      ItemDescriptionsAre(items[1..]);
      var one := [ItemDescription(items[0])];
      assert PerItem(items) == one + PerItem(items[1..]) by {
        PerItemCons(items);
      }
      assert Somes(one + PerItem(items[1..])) == Somes(one) + Somes(PerItem(items[1..])) by {
        SomesAppend(one, PerItem(items[1..]));
      }
      assert Somes(one) == if Strip(items[0]) != [] then [Strip(items[0])] else [] by {
        SomesOne(ItemDescription(items[0]));
      }
    }
  }

  /** The descriptions of a plan page are the stripped texts of all its
      non-blank list items, section after section and in order; the items
      counted for the share are all of them, blank ones included. */
  lemma {:induction false} DescriptionsAre(sections: seq<Section>)
    ensures Descriptions(sections) == Somes(PerItem(AllItems(sections)))
    ensures TotalItems(sections) == |AllItems(sections)|
  {
    if |sections| > 0 {
      DescriptionsAre(sections[1..]);
      var first := if sections[0].List? then sections[0].items else [];
      ItemDescriptionsAre(first);
      var rest := AllItems(sections[1..]);
      assert AllItems(sections) == first + rest;
      assert PerItem(first + rest) == PerItem(first) + PerItem(rest) by {
        PerItemAppend(first, rest);
      }
      assert Somes(PerItem(first) + PerItem(rest)) == Somes(PerItem(first)) + Somes(PerItem(rest)) by {
        SomesAppend(PerItem(first), PerItem(rest));
      }
    }
  }

  /** The section index after a feature has been counted: it moves on, up
      to 3, once the count reaches the end of the current section's share. */
  function Advance(fps: nat, current: nat, count: nat): nat {
    if count >= (current + 1) * fps then (if current + 1 < 3 then current + 1 else 3) else current
  }

  /** The loop over the descriptions, from section index `current` with
      `count` features already placed. */
  function Assign(ds: seq<string>, fps: nat, current: nat, count: nat): (fs: seq<Feature>)
    ensures |fs| == |ds|
    ensures forall k :: 0 <= k < |ds| ==> fs[k].description == ds[k]
  {
    if |ds| == 0 then []
    else [Feature(ds[0], current)] + Assign(ds[1..], fps, Advance(fps, current, count + 1), count + 1)
  }

  /** The plan's included features: one per description, in order. */
  function IncludedFeatures(sections: seq<Section>): (fs: seq<Feature>)
    ensures |fs| <= TotalItems(sections)
    ensures |fs| == |Descriptions(sections)|
    ensures forall k :: 0 <= k < |fs| ==> fs[k].description == Descriptions(sections)[k]
  {
    Assign(Descriptions(sections), PerSection(TotalItems(sections)), 0, 0)
  }

  // ---------------------------------------------------------------------------
  // A closed form for the section index

  /** The section index of the feature with 0-based position `j`: the
      position divided by the share, at most 3. A share of 0 acts as 1. */
  function Bucket(j: nat, fps: nat): (b: nat)
    ensures b <= 3
  {
    var q := j / (if fps > 0 then fps else 1);
    if q < 3 then q else 3
  }

  lemma {:induction false} MulMono(a: int, b: int, f: nat)
    requires a <= b
    ensures a * f <= b * f
    decreases b - a
  {
    if a < b {
      MulMono(a + 1, b, f);
      assert (a + 1) * f == a * f + f;
    }
  }

  /** The quotient is the one number whose multiple leaves a remainder
      below the divisor. */
  lemma DivUnique(x: int, f: nat, q: int, r: int)
    requires f > 0 && x == q * f + r && 0 <= r < f
    ensures x / f == q
  {
    var q2, r2 := x / f, x % f;
    assert x == q2 * f + r2 && 0 <= r2 < f;
    if q2 < q {
      MulMono(q2 + 1, q, f);
    } else if q2 > q {
      MulMono(q + 1, q2, f);
    }
  }

  /** Dividing the next number gives the same quotient or one more, and one
      more exactly when the next number reaches the next multiple. */
  lemma DivNext(j: nat, f: nat)
    requires f > 0
    ensures (j + 1) / f == j / f || (j + 1) / f == j / f + 1
    ensures (j + 1) / f == j / f + 1 <==> j + 1 >= (j / f + 1) * f
  {
    var q, r := j / f, j % f;
    assert j == q * f + r && 0 <= r < f;
    assert (q + 1) * f == q * f + f;
    if r + 1 < f {
      DivUnique(j + 1, f, q, r + 1);
    } else {
      DivUnique(j + 1, f, q + 1, 0);
    }
  }

  /** One step of the loop keeps the index equal to the closed form. */
  lemma AdvanceBucket(j: nat, fps: nat)
    ensures Advance(fps, Bucket(j, fps), j + 1) == Bucket(j + 1, fps)
  {
    var f := if fps > 0 then fps else 1;
    DivNext(j, f);
    if fps > 0 && j / f < 3 {
      assert Bucket(j, fps) == j / f;
    }
  }

  lemma {:induction false} AssignClosedForm(ds: seq<string>, fps: nat, count: nat)
    ensures forall k :: 0 <= k < |ds| ==> Assign(ds, fps, Bucket(count, fps), count)[k].sectionIndex == Bucket(count + k, fps)
  {
    if |ds| > 0 {
      AdvanceBucket(count, fps);
      AssignClosedForm(ds[1..], fps, count + 1);
      var fs := Assign(ds, fps, Bucket(count, fps), count);
      assert fs[1..] == Assign(ds[1..], fps, Bucket(count + 1, fps), count + 1);
      forall k | 0 < k < |ds| ensures fs[k].sectionIndex == Bucket(count + k, fps) {
        assert fs[k] == fs[1..][k - 1];
      }
    }
  }

  /** The section index of every feature is its position's bucket. */
  lemma IncludedFeaturesIndex(sections: seq<Section>)
    ensures var fs := IncludedFeatures(sections);
            forall k :: 0 <= k < |fs| ==> fs[k].sectionIndex == Bucket(k, PerSection(TotalItems(sections)))
  {
    var fps := PerSection(TotalItems(sections));
    var ds := Descriptions(sections);
    assert Bucket(0, fps) == 0;
    assert IncludedFeatures(sections) == Assign(ds, fps, Bucket(0, fps), 0);
    AssignClosedForm(ds, fps, 0);
  }

  /** Consecutive buckets differ by at most one and never go down. */
  lemma BucketStep(j: nat, fps: nat)
    ensures Bucket(j, fps) <= Bucket(j + 1, fps) <= Bucket(j, fps) + 1
  {
    DivNext(j, if fps > 0 then fps else 1);
  }

  /** The section indexes lie in 0..3, start at 0, never go down and move
      by at most one from a feature to the next. */
  lemma IncludedFeaturesIndexes(sections: seq<Section>)
    ensures var fs := IncludedFeatures(sections);
            && (forall k :: 0 <= k < |fs| ==> fs[k].sectionIndex <= 3)
            && (|fs| > 0 ==> fs[0].sectionIndex == 0)
            && (forall k :: 0 < k < |fs| ==> fs[k - 1].sectionIndex <= fs[k].sectionIndex <= fs[k - 1].sectionIndex + 1)
  {
    var fps := PerSection(TotalItems(sections));
    var fs := IncludedFeatures(sections);
    IncludedFeaturesIndex(sections);
    forall k | 0 < k < |fs| ensures fs[k - 1].sectionIndex <= fs[k].sectionIndex <= fs[k - 1].sectionIndex + 1 {
      BucketStep(k - 1, fps);
    }
  }

  /** With a share of at least one, bucket `b` below 3 holds exactly the
      positions from `b * fps` up to the next share, and bucket 3 the rest. */
  lemma BucketShares(j: nat, fps: nat, b: nat)
    requires fps > 0 && b < 3
    ensures Bucket(j, fps) == b <==> b * fps <= j < (b + 1) * fps
    ensures Bucket(j, fps) == 3 <==> 3 * fps <= j
  {
    var q, r := j / fps, j % fps;
    assert j == q * fps + r && 0 <= r < fps;
    assert (b + 1) * fps == b * fps + fps;
    if b * fps <= j < (b + 1) * fps {
      DivUnique(j, fps, b, j - b * fps);
    }
    if q >= 3 {
      MulMono(3, q, fps);
    } else {
      MulMono(q, 2, fps);
      assert 3 * fps == 2 * fps + fps;
    }
  }

  /** The section indexes of a list of features. */
  function Indexes(fs: seq<Feature>): (r: seq<nat>)
    ensures |r| == |fs|
  {
    seq(|fs|, k requires 0 <= k < |fs| => fs[k].sectionIndex)
  }

  /** Items that are already stripped and not blank are all kept, as they are. */
  lemma {:induction false} ItemDescriptionsKeepAll(items: seq<string>)
    requires forall k :: 0 <= k < |items| ==> items[k] != [] && Strip(items[k]) == items[k]
    ensures ItemDescriptions(items) == items
  {
    if |items| > 0 {
      ItemDescriptionsKeepAll(items[1..]);
      assert [items[0]] + items[1..] == items;
    }
  }

  /** One section whose list holds `n` stripped, non-blank items yields `n`
      features placed with the share `n // 4`. */
  lemma OneList(items: seq<string>)
    requires forall k :: 0 <= k < |items| ==> items[k] != [] && Strip(items[k]) == items[k]
    ensures TotalItems([List(items)]) == |items|
    ensures Descriptions([List(items)]) == items
  {
    ItemDescriptionsKeepAll(items);
    assert [List(items)][1..] == [];
    assert items + [] == items;
  }

  /** The buckets of the positions 0 to 9 for the share two. */
  lemma BucketsOfTwo()
    ensures Bucket(0, 2) == 0 && Bucket(1, 2) == 0 && Bucket(2, 2) == 1 && Bucket(3, 2) == 1 && Bucket(4, 2) == 2
    ensures Bucket(5, 2) == 2 && Bucket(6, 2) == 3 && Bucket(7, 2) == 3 && Bucket(8, 2) == 3 && Bucket(9, 2) == 3
  {
    DivUnique(0, 2, 0, 0);
    DivUnique(1, 2, 0, 1);
    DivUnique(2, 2, 1, 0);
    DivUnique(3, 2, 1, 1);
    DivUnique(4, 2, 2, 0);
    DivUnique(5, 2, 2, 1);
    DivUnique(6, 2, 3, 0);
    DivUnique(7, 2, 3, 1);
    DivUnique(8, 2, 4, 0);
    DivUnique(9, 2, 4, 1);
  }

  /** The features of one list of stripped, non-blank items: one per item,
      placed by the share of a quarter of the items. */
  lemma OneListFeatures(items: seq<string>)
    requires forall k :: 0 <= k < |items| ==> items[k] != [] && Strip(items[k]) == items[k]
    ensures var r := Indexes(IncludedFeatures([List(items)]));
            |r| == |items| && forall k :: 0 <= k < |r| ==> r[k] == Bucket(k, PerSection(|items|))
  {
    OneList(items);
    IncludedFeaturesIndex([List(items)]);
  }

  /** Ten non-blank features in one list get the share two and fill the
      buckets 0, 0, 1, 1, 2, 2 and then 3 for the rest. */
  lemma TenFeatures(items: seq<string>)
    requires |items| == 10
    requires forall k :: 0 <= k < |items| ==> items[k] != [] && Strip(items[k]) == items[k]
    ensures Indexes(IncludedFeatures([List(items)])) == [0, 0, 1, 1, 2, 2, 3, 3, 3, 3]
  {
    OneListFeatures(items);
    DivUnique(10, 4, 2, 2);
    BucketsOfTwo();
  }

  /** Fewer than four items make the share 0, and the index moves on with
      every feature: three features get 0, 1 and 2. */
  lemma ThreeFeatures(items: seq<string>)
    requires |items| == 3
    requires forall k :: 0 <= k < |items| ==> items[k] != [] && Strip(items[k]) == items[k]
    ensures Indexes(IncludedFeatures([List(items)])) == [0, 1, 2]
  {
    OneListFeatures(items);
    assert PerSection(3) == 0;
    var r := Indexes(IncludedFeatures([List(items)]));
    assert r[0] == Bucket(0, 0) && r[1] == Bucket(1, 0) && r[2] == Bucket(2, 0);
  }
}
