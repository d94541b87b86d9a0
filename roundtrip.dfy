/**
 * State saved by clicks is restored on the next load. A reload is `Load` run on
 * the same tree as rendered again (same folders, same anchor texts, any classes
 * and visibility) with the store the clicks left behind.
 */
module RoundTrip {
  import opened Wrappers
  import opened Slug
  import opened Tree

  /** Two renderings of one tree: the same items, folders and anchor texts; state may differ. */
  predicate SameTree(a: seq<Node>, b: seq<Node>) {
    |a| == |b| &&
    forall k :: 0 <= k < |a| ==> a[k].isFolder == b[k].isFolder && a[k].anchorText == b[k].anchorText
  }

  /** Every click targets an item of the tree. */
  predicate InRange(clicks: seq<nat>, n: nat) {
    forall c :: c in clicks ==> c < n
  }

  /** The store holds folder `j`'s current visibility under its id. */
  predicate Recorded(p: Page, j: nat)
    requires j < |p.nodes| && p.nodes[j].id.Some?
  {
    Read(p.store, p.nodes[j].id) == Some(if p.nodes[j].childrenVisible then "1" else "0")
  }

  /** A sequence of folder clicks, applied in order. */
  function Session(s: Settings, p: Page, clicks: seq<nat>): (r: Page)
    requires s.useCookie && IdsAssigned(p.nodes) && InRange(clicks, |p.nodes|)
    ensures SameTree(p.nodes, r.nodes) && IdsAssigned(r.nodes)
    ensures forall k :: 0 <= k < |p.nodes| ==> r.nodes[k].id == p.nodes[k].id
    ensures forall k :: 0 <= k < |p.nodes| && Consistent(p.nodes[k]) ==> Consistent(r.nodes[k])
    ensures forall k :: 0 <= k < |p.nodes| && k !in clicks ==> r.nodes[k] == p.nodes[k]
  {
    if clicks == [] then p
    else
      var prefix, last := clicks[..|clicks| - 1], clicks[|clicks| - 1];
      assert clicks == prefix + [last] && last in clicks;
      assert forall c :: c in prefix ==> c in clicks;
      var before := Session(s, p, prefix);
      Click(s, before, last)
  }

  /** A click on a consistent folder records the folder's new state under its id and keeps it consistent. */
  lemma ClickRecords(s: Settings, p: Page, i: nat)
    requires s.useCookie && CanClick(s, p, i) && p.nodes[i].isFolder && Consistent(p.nodes[i])
    ensures Click(s, p, i).nodes[i].id == p.nodes[i].id
    ensures Recorded(Click(s, p, i), i) && Consistent(Click(s, p, i).nodes[i])
  {
  }

  /** A click on one folder leaves the record of every other folder with a different id intact. */
  lemma ClickKeepsRecord(s: Settings, p: Page, i: nat, j: nat)
    requires s.useCookie && CanClick(s, p, i) && j < |p.nodes| && j != i
    requires p.nodes[j].id.Some? && Recorded(p, j)
    requires p.nodes[i].isFolder ==> p.nodes[i].id != p.nodes[j].id
    ensures Recorded(Click(s, p, i), j)
  {
  }

  /**
   * After a session of clicks on consistent folders with distinct ids, every
   * clicked folder's current visibility is recorded in the store.
   */
  lemma {:induction false} SessionRecords(s: Settings, p: Page, clicks: seq<nat>)
    requires s.useCookie && IdsAssigned(p.nodes) && DistinctIds(p.nodes) && InRange(clicks, |p.nodes|)
    requires forall c :: c in clicks && p.nodes[c].isFolder ==> Consistent(p.nodes[c])
    ensures forall j :: j in clicks && p.nodes[j].isFolder ==> Recorded(Session(s, p, clicks), j)
  {
    if clicks != [] {
      var prefix := clicks[..|clicks| - 1];
      var last := clicks[|clicks| - 1];
      assert clicks == prefix + [last] && last in clicks;
      assert forall c :: c in prefix ==> c in clicks;
      var before := Session(s, p, prefix);
      SessionRecords(s, p, prefix);
      assert forall k :: 0 <= k < |p.nodes| ==> before.nodes[k].isFolder == p.nodes[k].isFolder;
      forall j | j in clicks && p.nodes[j].isFolder
        ensures Recorded(Session(s, p, clicks), j)
      {
        if j == last {
          ClickRecords(s, before, last);
        } else {
          assert j in prefix;
          ClickKeepsRecord(s, before, last, j);
        }
      }
    }
  }

  /**
   * The round trip: with cookies on, after the load and a session of clicks on
   * folders that were consistent after the load, and with distinct folder ids,
   * reloading the same tree restores every clicked folder's visibility.
   */
  lemma ReloadRestoresSession(s: Settings, rootId: Option<string>, markup: seq<Node>,
                              store: Store, clicks: seq<nat>, markup2: seq<Node>)
    requires s.useCookie && InRange(clicks, |markup|) && SameTree(markup, markup2)
    requires DistinctIds(Load(s, rootId, markup, store).nodes)
    requires forall c :: c in clicks && markup[c].isFolder ==> Consistent(Load(s, rootId, markup, store).nodes[c])
    ensures forall j :: j in clicks && markup[j].isFolder ==>
      Load(s, rootId, markup2, Session(s, Load(s, rootId, markup, store), clicks).store).nodes[j].childrenVisible
      == Session(s, Load(s, rootId, markup, store), clicks).nodes[j].childrenVisible
  {
    var p0 := Load(s, rootId, markup, store);
    var p := Session(s, p0, clicks);
    var q := Load(s, rootId, markup2, p.store);
    SessionRecords(s, p0, clicks);
    forall j | j in clicks && markup[j].isFolder
      ensures q.nodes[j].childrenVisible == p.nodes[j].childrenVisible
    {
      var reloaded := AssignIds(rootId, markup2)[j];
      assert q.nodes[j] == RestoreNode(reloaded, p.store);
      assert p0.nodes[j].id == AssignIds(rootId, markup)[j].id == reloaded.id;
      assert Recorded(p, j);
    }
  }

  /** The round trip for a single click needs no distinct ids: only the clicked folder's own cookie is read back. */
  lemma ReloadRestoresClick(s: Settings, rootId: Option<string>, markup: seq<Node>,
                            store: Store, i: nat, markup2: seq<Node>)
    requires s.useCookie && i < |markup| && markup[i].isFolder && SameTree(markup, markup2)
    requires Consistent(Load(s, rootId, markup, store).nodes[i])
    ensures Load(s, rootId, markup2, Click(s, Load(s, rootId, markup, store), i).store).nodes[i].childrenVisible
            == Click(s, Load(s, rootId, markup, store), i).nodes[i].childrenVisible
  {
  }

  /**
   * A tree rendered with every folder consistent loads consistent, provided no
   * folder rendered expanded has a cookie reading '0'.
   */
  lemma LoadConsistent(s: Settings, rootId: Option<string>, markup: seq<Node>, store: Store)
    requires s.useCookie
    requires forall k :: 0 <= k < |markup| && markup[k].isFolder ==> Consistent(markup[k])
    requires forall k :: 0 <= k < |markup| && markup[k].isFolder && markup[k].expanded ==>
      Read(store, Some(FolderId(AttrText(rootId), markup[k].anchorText))) != Some("0")
    ensures forall k :: 0 <= k < |markup| && markup[k].isFolder ==> Consistent(Load(s, rootId, markup, store).nodes[k])
  {
  }

  // ------------------------------------- the round trip fails without its preconditions

  /**
   * Without distinct ids the round trip fails: when a closed folder is opened
   * and then a sibling with the same id (`SlugCollisionExample`) is closed, the
   * shared cookie reads '0', so a reload hides the children of every folder with
   * that id, the first one's included, although the clicks left them showing.
   */
  lemma CollidingIdsLoseState(s: Settings, p: Page, i: nat, j: nat)
    requires s.useCookie && i < |p.nodes| && j < |p.nodes| && i != j
    requires p.nodes[i].isFolder && p.nodes[j].isFolder && p.nodes[i].id.Some? && p.nodes[i].id == p.nodes[j].id
    requires !p.nodes[i].expanded && !p.nodes[i].childrenVisible
    requires p.nodes[j].expanded && p.nodes[j].childrenVisible
    ensures Click(s, Click(s, p, i), j).nodes[i].childrenVisible
    ensures forall n: Node :: n.isFolder && n.id == p.nodes[i].id ==>
      !RestoreNode(n, Click(s, Click(s, p, i), j).store).childrenVisible
  {
  }

  /**
   * Without consistency the round trip fails: a folder rendered expanded whose
   * cookie reads '0' loads hidden but still marked expanded; a click then shows
   * its children, removes the mark and stores '0', so a reload hides them again.
   */
  lemma StaleExpandedLosesState(s: Settings, rootId: Option<string>, markup: seq<Node>,
                                store: Store, i: nat, markup2: seq<Node>)
    requires s.useCookie && i < |markup| && markup[i].isFolder && markup[i].expanded && SameTree(markup, markup2)
    requires Read(store, AssignIds(rootId, markup)[i].id) == Some("0")
    ensures !Consistent(Load(s, rootId, markup, store).nodes[i])
    ensures Click(s, Load(s, rootId, markup, store), i).nodes[i].childrenVisible
    ensures !Load(s, rootId, markup2, Click(s, Load(s, rootId, markup, store), i).store).nodes[i].childrenVisible
  {
  }
}
