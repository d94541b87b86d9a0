/**
 * Value-level specification of the folder tree: the nodes the plugin finds
 * under its root list, the cookie store keyed by folder id, and what each of
 * the plugin's operations does to them.
 */
module Tree {
  import opened Wrappers
  import opened Slug

  /** The plugin's configuration; callbacks are not data and appear as log events instead. */
  datatype Settings = Settings(useCookie: bool, cookieExpiry: int, toggleAll: bool, folderClass: string)

  /** The defaults record of the plugin. */
  const Defaults := Settings(true, 150, true, "folder")

  /**
   * One list item of the tree. `isFolder` stands for "carries the folder class",
   * `expanded` for "carries the class expanded", `childrenVisible` for the
   * visibility of its direct sub-list; `id` is its id attribute, if any.
   */
  datatype Node = Node(isFolder: bool, anchorText: string, id: Option<string>,
                       expanded: bool, childrenVisible: bool)

  /** A stored cookie: its value and, when one was given, its expiry in days. */
  datatype Cookie = Cookie(value: string, expires: Option<int>)

  type Store = map<string, Cookie>

  /** The visible state of a page: the nodes and the cookie store. */
  datatype Page = Page(nodes: seq<Node>, store: Store)

  /** `$.cookie(key)`: the stored value, or nothing for an absent key or an element without an id. */
  function Read(store: Store, key: Option<string>): (r: Option<string>)
    ensures r.Some? <==> key.Some? && key.value in store
    ensures r.Some? ==> r.value == store[key.value].value
  {
    if key.Some? && key.value in store then Some(store[key.value].value) else None
  }

  /** An attribute as JavaScript string concatenation renders it: a missing one reads "undefined". */
  function AttrText(v: Option<string>): string {
    if v.Some? then v.value else "undefined"
  }

  /** The root id is usable as a cookie namespace only when it is present and non-empty. */
  predicate HasRootId(rootId: Option<string>) {
    rootId.Some? && rootId.value != ""
  }

  /** A folder's class and visibility agree: it is marked expanded exactly when its children show. */
  predicate Consistent(n: Node) {
    n.expanded == n.childrenVisible
  }

  /** Every folder has an id attribute. */
  predicate IdsAssigned(nodes: seq<Node>) {
    forall k :: 0 <= k < |nodes| && nodes[k].isFolder ==> nodes[k].id.Some?
  }

  /** No two folders share an id, and hence no two share a cookie. */
  predicate DistinctIds(nodes: seq<Node>) {
    forall j, k :: 0 <= j < |nodes| && 0 <= k < |nodes| && j != k && nodes[j].isFolder && nodes[k].isFolder
      ==> nodes[j].id != nodes[k].id
  }

  // ---------------------------------------------------------------- addIds

  /** The id `addIds` gives one node: folders get the derived id, other nodes are left alone. */
  function AssignId(rootId: Option<string>, n: Node): (m: Node)
    ensures m.isFolder ==> m.id == Some(FolderId(AttrText(rootId), n.anchorText))
    ensures !n.isFolder ==> m == n
    ensures m.(id := n.id) == n
  {
    if n.isFolder then n.(id := Some(FolderId(AttrText(rootId), n.anchorText))) else n
  }

  /** `addIds` over the whole tree, node by node. */
  function AssignIds(rootId: Option<string>, nodes: seq<Node>): (r: seq<Node>)
    ensures |r| == |nodes|
    ensures forall k :: 0 <= k < |nodes| ==> r[k] == AssignId(rootId, nodes[k])
  {
    if nodes == [] then [] else [AssignId(rootId, nodes[0])] + AssignIds(rootId, nodes[1..])
  }

  /** After `addIds` every folder carries an id, and its id depends only on the root id and its anchor text. */
  lemma AssignIdsAssigns(rootId: Option<string>, nodes: seq<Node>)
    ensures IdsAssigned(AssignIds(rootId, nodes))
  {
  }

  /** Running `addIds` twice gives the same tree as running it once. */
  lemma AssignIdsIdempotent(rootId: Option<string>, nodes: seq<Node>)
    ensures AssignIds(rootId, AssignIds(rootId, nodes)) == AssignIds(rootId, nodes)
  {
  }

  /** Folders get distinct ids exactly when no two folders' anchor texts share a slug. */
  lemma AssignIdsDistinct(rootId: Option<string>, nodes: seq<Node>)
    ensures DistinctIds(AssignIds(rootId, nodes)) <==>
      forall j, k :: 0 <= j < |nodes| && 0 <= k < |nodes| && j != k && nodes[j].isFolder && nodes[k].isFolder
        ==> Slugify(nodes[j].anchorText) != Slugify(nodes[k].anchorText)
  {
  }

  // ------------------------------------------------------ persistBehaviour

  /**
   * What `persistBehaviour` does to one node: a folder whose cookie reads '1' is
   * marked expanded and shows its children, one whose cookie reads '0' hides its
   * children and keeps its class, and any other node is left as it is.
   */
  function RestoreNode(n: Node, store: Store): (m: Node)
    ensures m.isFolder == n.isFolder && m.anchorText == n.anchorText && m.id == n.id
    ensures n.isFolder && Read(store, n.id) == Some("1") ==> m.expanded && m.childrenVisible
    ensures n.isFolder && Read(store, n.id) == Some("0") ==> !m.childrenVisible && m.expanded == n.expanded
    ensures !n.isFolder || Read(store, n.id) !in {Some("1"), Some("0")} ==> m == n
  {
    if !n.isFolder then n
    else if Read(store, n.id) == Some("1") then n.(expanded := true, childrenVisible := true)
    else if Read(store, n.id) == Some("0") then n.(childrenVisible := false)
    else n
  }

  /** `persistBehaviour`'s loop over the whole tree; each node is restored from its own cookie only. */
  function RestoreAll(nodes: seq<Node>, store: Store): (r: seq<Node>)
    ensures |r| == |nodes|
    ensures forall k :: 0 <= k < |nodes| ==> r[k] == RestoreNode(nodes[k], store)
  {
    if nodes == [] then [] else [RestoreNode(nodes[0], store)] + RestoreAll(nodes[1..], store)
  }

  /** Restoring twice from the same store gives the same tree as restoring once. */
  lemma RestoreAllIdempotent(nodes: seq<Node>, store: Store)
    ensures RestoreAll(RestoreAll(nodes, store), store) == RestoreAll(nodes, store)
  {
  }

  /**
   * A restored folder is consistent, unless its cookie reads '0' while the markup
   * marked it expanded: the '0' branch hides the children but keeps the class.
   */
  lemma RestoreConsistent(n: Node, store: Store)
    requires n.isFolder
    ensures Consistent(RestoreNode(n, store)) <==>
      Read(store, n.id) == Some("1") ||
      (Read(store, n.id) == Some("0") && !n.expanded) ||
      (Read(store, n.id) !in {Some("1"), Some("0")} && Consistent(n))
  {
  }

  // ------------------------------------------------------------ setCookie

  /** `setCookie`'s write: '1' with the configured expiry when expanded, '0' without one otherwise. */
  function Written(store: Store, key: string, expanded: bool, expiry: int): (r: Store)
    ensures r.Keys == store.Keys + {key}
    ensures forall k :: k in store && k != key ==> r[k] == store[k]
    ensures expanded ==> r[key] == Cookie("1", Some(expiry))
    ensures !expanded ==> r[key] == Cookie("0", None)
  {
    store[key := if expanded then Cookie("1", Some(expiry)) else Cookie("0", None)]
  }

  /**
   * The round trip for one folder: restoring a folder with the same id from a
   * store into which a consistent folder was just written gives it that folder's
   * visibility, whatever state the markup rendered it in.
   */
  lemma RestoreAfterWrite(saved: Node, reloaded: Node, store: Store, expiry: int)
    requires saved.id.Some? && reloaded.id == saved.id && reloaded.isFolder
    requires Consistent(saved)
    ensures RestoreNode(reloaded, Written(store, saved.id.value, saved.expanded, expiry)).childrenVisible
            == saved.childrenVisible
  {
  }

  // ---------------------------------------------------------- folderClick

  /** The class and the visibility of the children both flip. */
  function Toggle(n: Node): (m: Node)
    ensures m.expanded != n.expanded && m.childrenVisible != n.childrenVisible
    ensures m.(expanded := n.expanded, childrenVisible := n.childrenVisible) == n
    ensures Consistent(m) <==> Consistent(n)
  {
    n.(expanded := !n.expanded, childrenVisible := !n.childrenVisible)
  }

  /** A click on node `i` is possible, and a folder clicked with cookies on has an id to write under. */
  predicate CanClick(s: Settings, p: Page, i: nat) {
    i < |p.nodes| && (p.nodes[i].isFolder && s.useCookie ==> p.nodes[i].id.Some?)
  }

  /**
   * `folderClick` on the anchor of node `i`, with the toggle taken as complete:
   * a folder flips once and, with cookies on, exactly its own cookie is rewritten;
   * a click whose parent item is not a folder changes nothing.
   */
  function Click(s: Settings, p: Page, i: nat): (r: Page)
    requires CanClick(s, p, i)
    ensures |r.nodes| == |p.nodes|
    ensures forall k :: 0 <= k < |p.nodes| && k != i ==> r.nodes[k] == p.nodes[k]
    ensures !p.nodes[i].isFolder ==> r == p
    ensures p.nodes[i].isFolder ==> r.nodes[i] == Toggle(p.nodes[i])
    ensures p.nodes[i].isFolder && s.useCookie ==>
      r.store == Written(p.store, p.nodes[i].id.value, !p.nodes[i].expanded, s.cookieExpiry)
    ensures !s.useCookie ==> r.store == p.store
  {
    if !p.nodes[i].isFolder then p
    else
      var n := Toggle(p.nodes[i]);
      var nodes := p.nodes[i := n];
      Page(nodes, if s.useCookie then Written(p.store, n.id.value, n.expanded, s.cookieExpiry) else p.store)
  }

  // ----------------------------------------------------------------- init

  /** The page `init` leaves behind when it succeeds: with cookies on, ids are assigned and state restored. */
  function Load(s: Settings, rootId: Option<string>, markup: seq<Node>, store: Store): (r: Page)
    ensures r.store == store && |r.nodes| == |markup|
    ensures s.useCookie ==> IdsAssigned(r.nodes)
    ensures !s.useCookie ==> r.nodes == markup
  {
    if s.useCookie then
      AssignIdsAssigns(rootId, markup);
      Page(RestoreAll(AssignIds(rootId, markup), store), store)
    else Page(markup, store)
  }
}
