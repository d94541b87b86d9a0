/**
 * The plugin object: one per root list. Its fields are the settings, the root
 * list's id, the folder and file items under it, the cookie store and a log of
 * the callbacks and notifications it emits. Each jQuery click handler is a
 * direct method call on the index of the list item whose anchor was clicked.
 */
module Accordion {
  import opened Wrappers
  import opened Slug
  import opened Tree

  /** What the plugin emits: the user callbacks and the notifications triggered on the root list. */
  datatype Event =
    | FolderCallback(anchor: nat)
    | OnFolderClick(anchor: nat)
    | FileCallback(anchor: nat)
    | OnFileClick(anchor: nat)

  const MissingIdError :=
    "FolderTreeAccordion: If 'useCookie' option is used, then CSS selector element(root UL/OL) needs to have valid 'id' attribute."

  class FolderTreeAccordion {
    var settings: Settings
    var rootId: Option<string>
    var nodes: seq<Node>
    var store: Store
    var log: seq<Event>
    /** Whether `init` has attached the two click handlers. */
    var bound: bool

    /** Once handlers are attached with cookies on, every folder has an id for its cookie. */
    ghost predicate Valid()
      reads this
    {
      bound && settings.useCookie ==> IdsAssigned(nodes)
    }

    /** The current page state. */
    function CurrentPage(): Page
      reads this
    {
      Page(nodes, store)
    }

    constructor (rootId: Option<string>, markup: seq<Node>, store: Store, settings: Settings)
      ensures this.rootId == rootId && nodes == markup && this.store == store && this.settings == settings
      ensures log == [] && !bound && Valid()
    {
      this.rootId := rootId;
      this.nodes := markup;
      this.store := store;
      this.settings := settings;
      this.log := [];
      this.bound := false;
    }

    /**
     * With cookies on, refuses a root list without a non-empty id before touching
     * anything; otherwise assigns ids and restores state (cookies on) and attaches
     * the handlers.
     */
    method Init() returns (r: Outcome)
      modifies this`nodes, this`bound
      ensures r.Fail? <==> settings.useCookie && !HasRootId(rootId)
      ensures r.Fail? ==> r.error == MissingIdError && nodes == old(nodes) && bound == old(bound)
      ensures r.Pass? ==> bound && Valid() && CurrentPage() == Load(settings, rootId, old(nodes), store)
    {
      if settings.useCookie {
        if rootId == None || rootId == Some("") {
          return Fail(MissingIdError);
        }
        PersistBehaviour();
      }
      bound := true;
      r := Pass;
    }

    /** With cookies on, assigns ids, then restores each folder from its cookie. */
    method PersistBehaviour()
      modifies this`nodes
      ensures nodes == if settings.useCookie then RestoreAll(AssignIds(rootId, old(nodes)), store) else old(nodes)
    {
      if settings.useCookie {
        AddIds();
        RestoreFolders();
      }
    }

    /** The loop over the folders: '1' expands a folder and shows its children, '0' hides them. */
    method RestoreFolders()
      modifies this`nodes
      ensures nodes == RestoreAll(old(nodes), store)
    {
      var k := 0;
      while k < |nodes|
        invariant 0 <= k <= |nodes| == |old(nodes)|
        invariant forall m :: 0 <= m < k ==> nodes[m] == RestoreNode(old(nodes)[m], store)
        invariant forall m :: k <= m < |nodes| ==> nodes[m] == old(nodes)[m]
      {
        var n := nodes[k];
        if n.isFolder {
          var stored := Read(store, n.id);
          if stored == Some("1") {
            n := n.(expanded := true, childrenVisible := true);
          } else if stored == Some("0") {
            n := n.(childrenVisible := false);
          }
        }
        nodes := nodes[k := n];
        k := k + 1;
      }
    }

    /** Gives every folder the id derived from the root id and its anchor text. */
    method AddIds()
      modifies this`nodes
      ensures nodes == AssignIds(rootId, old(nodes))
    {
      var k := 0;
      while k < |nodes|
        invariant 0 <= k <= |nodes| == |old(nodes)|
        invariant forall m :: 0 <= m < k ==> nodes[m] == AssignId(rootId, old(nodes)[m])
        invariant forall m :: k <= m < |nodes| ==> nodes[m] == old(nodes)[m]
      {
        if nodes[k].isFolder {
          nodes := nodes[k := nodes[k].(id := Some(AttrText(rootId) + "_" + Lower(ReplaceSpaces(nodes[k].anchorText))))];
        }
        k := k + 1;
      }
    }

    /**
     * A click on the anchor of item `i`. If the item is a folder, the default
     * action is prevented, its class and its children's visibility flip, the
     * callback and the notification fire, and with cookies on its cookie is
     * rewritten; otherwise nothing happens.
     */
    method FolderClick(i: nat) returns (prevented: bool)
      requires bound && Valid() && i < |nodes|
      modifies this`nodes, this`store, this`log
      ensures Valid()
      ensures prevented == old(nodes[i].isFolder)
      ensures CurrentPage() == Click(settings, old(CurrentPage()), i)
      ensures log == old(log) + if prevented then [FolderCallback(i), OnFolderClick(i)] else []
    {
      if !nodes[i].isFolder {
        return false;
      }
      prevented := true;
      nodes := nodes[i := nodes[i].(expanded := !nodes[i].expanded, childrenVisible := !nodes[i].childrenVisible)];
      log := log + [FolderCallback(i), OnFolderClick(i)];
      if settings.useCookie {
        SetCookie(i);
      }
    }

    /** Stores item `i`'s state under its id: '1' with the expiry when expanded, else '0'. */
    method SetCookie(i: nat)
      requires i < |nodes| && nodes[i].id.Some?
      modifies this`store
      ensures store == Written(old(store), nodes[i].id.value, nodes[i].expanded, settings.cookieExpiry)
    {
      if nodes[i].expanded {
        store := store[nodes[i].id.value := Cookie("1", Some(settings.cookieExpiry))];
      } else {
        store := store[nodes[i].id.value := Cookie("0", None)];
      }
    }

    /** A click on the anchor of a file item: the callback and the notification fire, nothing else. */
    method FileClick(i: nat) returns (prevented: bool)
      requires bound && i < |nodes|
      modifies this`log
      ensures !prevented
      ensures log == old(log) + [FileCallback(i), OnFileClick(i)]
    {
      log := log + [FileCallback(i), OnFileClick(i)];
      prevented := false;
    }
  }
}
