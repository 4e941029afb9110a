/** Where a community record is saved, and the batch run that skips every
    community whose file is already there (get_meritage_page.py:64-75 and
    562-571). The file system is modelled by the set of file names that
    exist, and the whole of a page's processing by whether it gets as far as
    saving its record. */
module Output {
  import opened Text
  import opened Urls

  const JsonPrefix: string := "/json/meritage_"
  const JsonSuffix: string := ".json"

  /** The record file of a community page: named after the last segment of
      the page's address, inside the `json` directory of `dir`. The name is
      the directory's prefix, the community's name and the suffix, so the
      community's name can be read back out of it. */
  function JsonFile(dir: string, url: string): (f: string)
    ensures StartsWith(f, dir + JsonPrefix) && EndsWith(f, JsonSuffix)
    ensures |f| == |dir| + |JsonPrefix| + |CommunityName(url)| + |JsonSuffix|
    ensures f[|dir| + |JsonPrefix|..|f| - |JsonSuffix|] == CommunityName(url)
  {
    var f := dir + JsonPrefix + CommunityName(url) + JsonSuffix;
    assert f[..|dir + JsonPrefix|] == dir + JsonPrefix;
    f
  }

  /** Two pages share a record file exactly when their addresses end in the
      same segment. */
  lemma JsonFileShared(dir: string, u: string, v: string)
    ensures JsonFile(dir, u) == JsonFile(dir, v) <==> CommunityName(u) == CommunityName(v)
  {
  }

  /** A page is skipped when its record file already exists. */
  predicate Skips(existing: set<string>, dir: string, url: string) {
    JsonFile(dir, url) in existing
  }

  /** The files that exist after a batch run, and the pages it visited, in
      order. */
  datatype Run = Run(files: set<string>, visited: seq<string>)

  /** The batch loop over the links: a page whose file exists is skipped;
      any other page is visited, and its file is written when the page is in
      `ok`, the pages whose processing reaches the save. */
  function Batch(existing: set<string>, dir: string, urls: seq<string>, ok: set<string>): (r: Run)
    ensures existing <= r.files
    ensures |r.visited| <= |urls|
    ensures forall k :: 0 <= k < |r.visited| ==> r.visited[k] in urls
    decreases |urls|
  {
    if |urls| == 0 then Run(existing, [])
    else
      var f := JsonFile(dir, urls[0]);
      if f in existing then Batch(existing, dir, urls[1..], ok)
      else
        var rest := Batch(if urls[0] in ok then existing + {f} else existing, dir, urls[1..], ok);
        Run(rest.files, [urls[0]] + rest.visited)
  }

  /** The record files the pages of `ok` among `urls` are saved under. */
  function Saved(dir: string, urls: seq<string>, ok: set<string>): set<string> {
    set u | u in urls && u in ok :: JsonFile(dir, u)
  }

  lemma SavedCons(dir: string, urls: seq<string>, ok: set<string>)
    requires |urls| > 0
    ensures Saved(dir, urls, ok) == Saved(dir, urls[1..], ok) + (if urls[0] in ok then {JsonFile(dir, urls[0])} else {})
  {
    forall u | u in urls ensures u == urls[0] || u in urls[1..] {
      var k :| 0 <= k < |urls| && urls[k] == u;
      if k > 0 {
        assert urls[1..][k - 1] == u;
      }
    }
  }

  /** After a run, the files are those that existed plus the record file of
      every page that got as far as saving. */
  lemma {:induction false} BatchFiles(existing: set<string>, dir: string, urls: seq<string>, ok: set<string>)
    ensures Batch(existing, dir, urls, ok).files == existing + Saved(dir, urls, ok)
    decreases |urls|
  {
    if |urls| > 0 {
      var f := JsonFile(dir, urls[0]);
      SavedCons(dir, urls, ok);
      if f in existing {
        BatchFiles(existing, dir, urls[1..], ok);
      } else {
        BatchFiles(if urls[0] in ok then existing + {f} else existing, dir, urls[1..], ok);
      }
    }
  }

  /** The loop reaches link `k` with no record file for it: neither among
      the files that existed nor among those the earlier links saved. */
  predicate Reached(existing: set<string>, dir: string, urls: seq<string>, ok: set<string>, k: int)
    requires 0 <= k < |urls|
  {
    JsonFile(dir, urls[k]) !in existing + Saved(dir, urls[..k], ok)
  }

  /** The links from `k` on that the loop reaches without a record file,
      in order. */
  function PendingFrom(existing: set<string>, dir: string, urls: seq<string>, ok: set<string>, k: nat): (r: seq<string>)
    requires k <= |urls|
    ensures forall j :: 0 <= j < |r| ==> r[j] in urls[k..]
    decreases |urls| - k
  {
    if k == |urls| then []
    else (if Reached(existing, dir, urls, ok, k) then [urls[k]] else []) + PendingFrom(existing, dir, urls, ok, k + 1)
  }

  /** Saving one more link adds its record file when it reaches the save. */
  lemma SavedSnoc(dir: string, urls: seq<string>, ok: set<string>, k: nat)
    requires k < |urls|
    ensures Saved(dir, urls[..k + 1], ok) == Saved(dir, urls[..k], ok) + (if urls[k] in ok then {JsonFile(dir, urls[k])} else {})
  {
    assert urls[..k + 1] == urls[..k] + [urls[k]];
  }

  /** From link `k` on, the batch started over the files present when the
      loop gets there visits exactly the pending links. */
  lemma {:induction false} BatchVisitsFrom(existing: set<string>, dir: string, urls: seq<string>, ok: set<string>, k: nat)
    requires k <= |urls|
    ensures Batch(existing + Saved(dir, urls[..k], ok), dir, urls[k..], ok).visited == PendingFrom(existing, dir, urls, ok, k)
    decreases |urls| - k
  {
    if k < |urls| {
      var e := existing + Saved(dir, urls[..k], ok);
      var f := JsonFile(dir, urls[k]);
      var tail := urls[k..];
      assert tail[0] == urls[k] && tail[1..] == urls[k + 1..];
      SavedSnoc(dir, urls, ok, k);
      var e' := existing + Saved(dir, urls[..k + 1], ok);
      assert e' == if f in e || urls[k] !in ok then e else e + {f};
      BatchVisitsFrom(existing, dir, urls, ok, k + 1);
    }
  }

  /** The pages a batch visits are, in order, exactly the links the loop
      reaches while their record file is absent: it neither existed nor was
      written for an earlier link. */
  lemma BatchVisits(existing: set<string>, dir: string, urls: seq<string>, ok: set<string>)
    ensures Batch(existing, dir, urls, ok).visited == PendingFrom(existing, dir, urls, ok, 0)
  {
    assert urls[..0] == [] && urls[0..] == urls;
    assert Saved(dir, [], ok) == {};
    BatchVisitsFrom(existing, dir, urls, ok, 0);
  }

  /** A link reached while its record file is absent is pending. */
  lemma {:induction false} PendingHas(existing: set<string>, dir: string, urls: seq<string>, ok: set<string>, k: nat, j: nat)
    requires k <= j < |urls| && Reached(existing, dir, urls, ok, j)
    ensures urls[j] in PendingFrom(existing, dir, urls, ok, k)
    decreases j - k
  {
    var rest := PendingFrom(existing, dir, urls, ok, k + 1);
    var head := if Reached(existing, dir, urls, ok, k) then [urls[k]] else [];
    assert PendingFrom(existing, dir, urls, ok, k) == head + rest;
    if k < j {
      PendingHas(existing, dir, urls, ok, k + 1, j);
      assert urls[j] in head + rest;
    } else {
      assert head == [urls[j]];
    }
  }

  /** No page of `pages` is skipped over the files `existing`. */
  predicate NoneSkipped(existing: set<string>, dir: string, pages: seq<string>) {
    forall k :: 0 <= k < |pages| ==> !Skips(existing, dir, pages[k])
  }

  /** A visited page had no record file when the run started, and every
      link the loop reaches while its record file is absent is visited. */
  lemma {:induction false} BatchVisitsNew(existing: set<string>, dir: string, urls: seq<string>, ok: set<string>)
    ensures NoneSkipped(existing, dir, Batch(existing, dir, urls, ok).visited)
    ensures forall k :: 0 <= k < |urls| && Reached(existing, dir, urls, ok, k) ==> urls[k] in Batch(existing, dir, urls, ok).visited
    decreases |urls|
  {
    forall k | 0 <= k < |urls| && Reached(existing, dir, urls, ok, k)
      ensures urls[k] in Batch(existing, dir, urls, ok).visited
    {
      BatchVisits(existing, dir, urls, ok);
      PendingHas(existing, dir, urls, ok, 0, k);
    }
    if |urls| > 0 {
      var f := JsonFile(dir, urls[0]);
      if f in existing {
        assert Batch(existing, dir, urls, ok) == Batch(existing, dir, urls[1..], ok);
        BatchVisitsNew(existing, dir, urls[1..], ok);
      } else {
        var e := if urls[0] in ok then existing + {f} else existing;
        var rest := Batch(e, dir, urls[1..], ok).visited;
        assert Batch(existing, dir, urls, ok).visited == [urls[0]] + rest;
        BatchVisitsNew(e, dir, urls[1..], ok);
        NoneSkippedCons(existing, e, dir, urls[0], rest);
      }
    }
  }

  /** A page that is not skipped, followed by pages none of which is skipped
      over more files, are none of them skipped. */
  lemma NoneSkippedCons(existing: set<string>, e: set<string>, dir: string, u: string, rest: seq<string>)
    requires existing <= e && !Skips(existing, dir, u) && NoneSkipped(e, dir, rest)
    ensures NoneSkipped(existing, dir, [u] + rest)
  {
    var r := [u] + rest;
    forall k | 0 < k < |r| ensures !Skips(existing, dir, r[k]) {
      assert r[k] == rest[k - 1];
    }
  }

  /** A run over files that already hold every record it could save writes
      nothing and visits only pages that fail again. */
  lemma {:induction false} BatchSettled(existing: set<string>, dir: string, urls: seq<string>, ok: set<string>)
    requires Saved(dir, urls, ok) <= existing
    ensures Batch(existing, dir, urls, ok).files == existing
    ensures var r := Batch(existing, dir, urls, ok);
            forall k :: 0 <= k < |r.visited| ==> r.visited[k] !in ok
    decreases |urls|
  {
    if |urls| > 0 {
      SavedCons(dir, urls, ok);
      BatchSettled(existing, dir, urls[1..], ok);
    }
  }

  /** Running the batch a second time saves nothing new and visits only the
      pages that failed. */
  lemma BatchRerun(existing: set<string>, dir: string, urls: seq<string>, ok: set<string>)
    ensures var first := Batch(existing, dir, urls, ok);
            var second := Batch(first.files, dir, urls, ok);
            second.files == first.files && forall k :: 0 <= k < |second.visited| ==> second.visited[k] !in ok
  {
    var first := Batch(existing, dir, urls, ok);
    BatchFiles(existing, dir, urls, ok);
    BatchSettled(first.files, dir, urls, ok);
  }

  /** Of two pages whose addresses end in the same segment, the second is
      skipped once the first has been saved. */
  lemma SameNameSkipped(existing: set<string>, dir: string, u: string, v: string, ok: set<string>)
    requires CommunityName(u) == CommunityName(v)
    requires !Skips(existing, dir, u) && u in ok
    ensures Batch(existing, dir, [u, v], ok).visited == [u]
  {
    JsonFileShared(dir, u, v);
    assert [u, v][1..] == [v];
    assert [v][1..] == [];
  }
}
