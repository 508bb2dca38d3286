/** Several segments over one disk. */
module Groups {
  import opened Layout
  import opened Disks
  import opened Segments
  import I = Index

  twostate predicate Kept(s: Segment)
    reads s, s.offsetIndex
  {
    unchanged(s) && unchanged(s.offsetIndex)
  }

  /** A segment whose fields and file nobody touched is as valid as it was. */
  twostate lemma Undisturbed(s: Segment)
    requires old(s.Valid()) && unchanged(s) && unchanged(s.offsetIndex)
    requires s.name in s.disk.files && s.disk.files[s.name] == old(s.disk.files)[s.name]
    ensures s.Valid() && s.Covered() == old(s.Covered())
  {
    hide FileOk, MetaOf, Offset, I.Truthful, I.Covers, I.Marks;
  }

  lemma InFile(s: Segment)
    requires s.Valid()
    ensures s.name in s.disk.files && s.name == s.view.base
    ensures FileOk(s.disk.files[s.name], s.view) && s.view.Fits()
    ensures s.meta == MetaOf(s.disk.files[s.name])
  {
    hide Holds, HeaderOk;
  }

  ghost function ObjectsOf(segments: seq<Segment>): set<object>
  {
    (set s: Segment | s in segments :: s as object) + (set s: Segment | s in segments :: s.offsetIndex as object)
  }

  lemma MemberObjects(segments: seq<Segment>, k: nat)
    requires k < |segments|
    ensures segments[k] in ObjectsOf(segments) && segments[k].offsetIndex in ObjectsOf(segments)
  {
    assert segments[k] in segments;
  }

  lemma ObjectsOfPart(segments: seq<Segment>, k: nat)
    requires k <= |segments|
    ensures ObjectsOf(segments[k..]) <= ObjectsOf(segments)
  {
  }

  /** Segments that are valid on their own, stand for these views, and share no state. */
  ghost predicate SoundSegments(disk: Disk, segments: seq<Segment>, views: seq<View>)
    reads disk, ObjectsOf(segments)
  {
    && |segments| == |views|
    && (forall i | 0 <= i < |segments| ::
          assert segments[i] in segments;
          && segments[i].disk == disk
          && segments[i].view == views[i]
          && segments[i].Valid() && segments[i].Covered())
    && (forall i, j | 0 <= i < j < |segments| ::
          segments[i] != segments[j] && segments[i].offsetIndex != segments[j].offsetIndex)
  }

  lemma SoundAdd(disk: Disk, segments: seq<Segment>, views: seq<View>, s: Segment)
    requires SoundSegments(disk, segments, views) && s.disk == disk && s.Valid() && s.Covered()
    requires forall i | 0 <= i < |segments| :: segments[i] != s && segments[i].offsetIndex != s.offsetIndex
    ensures SoundSegments(disk, segments + [s], views + [s.view])
  {
    hide Segment.Valid, Segment.Covered;
  }

  lemma SoundLength(disk: Disk, segments: seq<Segment>, views: seq<View>)
    requires SoundSegments(disk, segments, views)
    ensures |segments| == |views|
  {
  }

  lemma OnlyOne(disk: Disk, segments: seq<Segment>, views: seq<View>, i: nat)
    requires |segments| == |views| && i < |segments|
    requires SoundSegments(disk, segments[i..i + 1], views[i..i + 1])
    ensures segments[i].disk == disk && segments[i].view == views[i]
    ensures segments[i].Valid() && segments[i].Covered() && segments[i].name == views[i].base
  {
    hide FileOk, Offset, I.Truthful, I.Marks, I.Covers;
    assert segments[i..i + 1][0] == segments[i];
  }

  lemma SoundSingle(s: Segment)
    requires s.Valid() && s.Covered()
    ensures SoundSegments(s.disk, [s], [s.view])
  {
    hide Segment.Valid, Segment.Covered;
  }
}
