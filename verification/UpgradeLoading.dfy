/**
 What loading makes of the upgrader scripts, after `Upgrader.__init__` and `load_all` in
 custom_gem5/util/cpt_upgrader.py, for scripts with different tags and different legacy versions.
 */
module UpgradeLoading {
  import opened Basics
  import opened CptUpgrader
  import opened UpgradeOrder

  ghost predicate DistinctVersions(ss: seq<Script>) {
    forall i, j :: 0 <= i < j < |ss| && ss[i].legacyVersion.Some? ==> ss[i].legacyVersion != ss[j].legacyVersion
  }

  ghost predicate IsTag(ss: seq<Script>, a: Tag) {
    exists k :: 0 <= k < |ss| && ss[k].tag == a
  }

  ghost predicate HasVersion(ss: seq<Script>, v: int) {
    exists k :: 0 <= k < |ss| && ss[k].legacyVersion == Some(v)
  }

  /** Script `k` is a legacy version from 3 on and none is missing from 2 up to it. */
  ghost predicate Follows(ss: seq<Script>, k: nat)
    requires k < |ss|
  {
    && ss[k].legacyVersion.Some? && 3 <= ss[k].legacyVersion.value
    && forall i :: 2 <= i <= ss[k].legacyVersion.value ==> HasVersion(ss, i)
  }

  /** Script `k` itself asks for `d`: the version before it if it follows one, and otherwise what it declares. */
  ghost predicate AsksFor(ss: seq<Script>, k: nat, d: Tag)
    requires k < |ss|
  {
    if Follows(ss, k)
    then exists j :: 0 <= j < |ss| && ss[j].legacyVersion == Some(ss[k].legacyVersion.value - 1) && ss[j].tag == d
    else d in ss[k].depends
  }

  /** The script of `d` wants to run before script `k`. */
  ghost predicate AskedBy(ss: seq<Script>, k: nat, d: Tag)
    requires k < |ss|
  {
    exists j :: 0 <= j < |ss| && ss[j].tag == d && ss[k].tag in ss[j].fwdDepends
  }

  // ---------------------------------------------------------------- the lookup tables

  lemma {:induction false} VersionKeys(ss: seq<Script>, v: int)
    ensures v in ByVersion(ss) <==> HasVersion(ss, v)
  {
    if ss != [] {
      var init := ss[..|ss| - 1];
      VersionKeys(init, v);
      assert forall k :: 0 <= k < |init| ==> init[k] == ss[k];
      if HasVersion(init, v) {
        var k :| 0 <= k < |init| && init[k].legacyVersion == Some(v);
        assert ss[k].legacyVersion == Some(v);
      }
      if ss[|ss| - 1].legacyVersion == Some(v) {
        assert HasVersion(ss, v);
      }
    }
  }

  lemma ByVersionOf(ss: seq<Script>, k: nat)
    requires k < |ss| && DistinctVersions(ss) && ss[k].legacyVersion.Some?
    ensures ss[k].legacyVersion.value in ByVersion(ss) && ByVersion(ss)[ss[k].legacyVersion.value] == k
  {
    var v := ss[k].legacyVersion.value;
    assert HasVersion(ss, v);
    VersionKeys(ss, v);
    VersionIs(ss, v);
  }

  lemma TagKeys(ss: seq<Script>, a: Tag)
    requires DistinctTags(ss)
    ensures a in ByTag(ss) <==> IsTag(ss, a)
  {
    TablesAre(ss);
    if k :| 0 <= k < |ss| && ss[k].tag == a {
      ByTagOf(ss, k);
    }
  }

  // ---------------------------------------------------------------- dependencies

  lemma FollowsIs(ss: seq<Script>, k: nat)
    requires k < |ss| && DistinctVersions(ss)
    ensures Linked(ss, k) <==> Follows(ss, k)
  {
    if ss[k].legacyVersion.Some? {
      ByVersionOf(ss, k);
      forall i
        ensures i in ByVersion(ss) <==> HasVersion(ss, i)
      {
        VersionKeys(ss, i);
      }
    }
  }

  lemma AsksForIs(ss: seq<Script>, k: nat, d: Tag)
    requires k < |ss| && DistinctVersions(ss)
    ensures d in ChainedDeps(ss, k) <==> AsksFor(ss, k, d)
  {
    FollowsIs(ss, k);
    TablesAre(ss);
    if Follows(ss, k) {
      var v := ss[k].legacyVersion.value - 1;
      assert HasVersion(ss, v);
      VersionKeys(ss, v);
      VersionIs(ss, v);
      forall j | 0 <= j < |ss| && ss[j].legacyVersion == Some(v)
        ensures j == ByVersion(ss)[v]
      {
        ByVersionOf(ss, j);
      }
    }
  }

  lemma AskedByIs(ss: seq<Script>, k: nat, d: Tag)
    requires k < |ss| && DistinctTags(ss)
    ensures (d in ByTag(ss) && ByTag(ss)[d] < |ss| && ss[k].tag in ss[ByTag(ss)[d]].fwdDepends) <==> AskedBy(ss, k, d)
  {
    TablesAre(ss);
    if j :| 0 <= j < |ss| && ss[j].tag == d && ss[k].tag in ss[j].fwdDepends {
      ByTagOf(ss, j);
    }
  }

  /** After loading, a script waits for what it asks for and for the scripts that ask to run before it, and no more. */
  lemma LoadedEdges(ss: seq<Script>, t: Table, k: nat, d: Tag)
    requires Loaded(ss, t) && DistinctTags(ss) && DistinctVersions(ss) && k < |ss|
    ensures Edge(t, ss[k].tag, d) <==> AsksFor(ss, k, d) || AskedBy(ss, k, d)
  {
    TablesAre(ss);
    ByTagOf(ss, k);
    AsksForIs(ss, k, d);
    AskedByIs(ss, k, d);
    assert Edge(t, ss[k].tag, d) <==> DependsOn(ss, ss[k].tag, d);
  }

  /** The tags to add, the tags to remove and the legacy versions are those of the scripts. */
  lemma LoadedTags(ss: seq<Script>, t: Table, a: Tag, v: int)
    requires Loaded(ss, t) && DistinctTags(ss) && DistinctVersions(ss)
    ensures a in t.tagSet <==> exists k :: 0 <= k < |ss| && ss[k].tag == a && ss[k].upgrade
    ensures a in t.untagSet <==> exists k :: 0 <= k < |ss| && ss[k].tag == a && !ss[k].upgrade
    ensures v in t.legacy && t.legacy[v] == a <==>
            exists k :: 0 <= k < |ss| && ss[k].tag == a && ss[k].legacyVersion == Some(v)
  {
    TagsAre(ss, true, a);
    TagsAre(ss, false, a);
    TablesAre(ss);
    if k :| 0 <= k < |ss| && ss[k].tag == a && ss[k].legacyVersion == Some(v) {
      ByVersionOf(ss, k);
    }
  }

  /** The scripts load exactly if version 3 comes with version 2, and all that is asked for or forwarded to is a tag. */
  lemma LoadableIff(ss: seq<Script>)
    requires DistinctTags(ss) && DistinctVersions(ss)
    ensures Loadable(ss) <==>
              && (HasVersion(ss, 3) ==> HasVersion(ss, 2))
              && (forall k, f :: 0 <= k < |ss| && f in ss[k].fwdDepends ==> IsTag(ss, f))
              && (forall k, d :: 0 <= k < |ss| && AsksFor(ss, k, d) ==> IsTag(ss, d))
  {
    VersionKeys(ss, 2);
    VersionKeys(ss, 3);
    TablesAre(ss);
    forall k | 0 <= k < |ss|
      ensures ss[k].tag in ByTag(ss) && ByTag(ss)[ss[k].tag] == k && (Sound(ss, ss[k].tag) <==> SoundAt(ss, k))
    {
      ByTagOf(ss, k);
      SoundIs(ss, k);
    }
  }

  ghost predicate SoundAt(ss: seq<Script>, k: nat)
    requires k < |ss|
  {
    && (forall f :: f in ss[k].fwdDepends ==> IsTag(ss, f))
    && (forall d :: AsksFor(ss, k, d) ==> IsTag(ss, d))
  }

  lemma SoundIs(ss: seq<Script>, k: nat)
    requires k < |ss| && DistinctTags(ss) && DistinctVersions(ss)
    ensures Sound(ss, ss[k].tag) <==> SoundAt(ss, k)
  {
    TablesAre(ss);
    ByTagOf(ss, k);
    forall a
      ensures (a in ByTag(ss) <==> IsTag(ss, a)) && (a in ChainedDeps(ss, k) <==> AsksFor(ss, k, a))
    {
      TagKeys(ss, a);
      AsksForIs(ss, k, a);
    }
  }
}
