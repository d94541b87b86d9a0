# Persistent Folder Tree Accordion — a Dafny model

The jQuery plugin `FolderTreeAccordion` turns a nested list into a folder
tree: clicking a folder's anchor opens or closes its sub-list, and the open or
closed state of every folder is kept in a cookie, keyed by an id derived from
the root list's id and the folder's anchor text, so that the next page load
shows the tree as the user left it.

This project models the state logic under the event binding and animation:

- `slug.dfy` (module `Slug`): the id derivation — spaces become underscores,
  the text is lower-cased (ASCII), and the root id and an underscore are put
  in front.
- `tree.dfy` (module `Tree`): value-level definitions of the list items
  (`Node`), the settings and their defaults, the cookie store
  (`map<string, Cookie>`), and what each operation does: `AssignIds`
  (addIds), `RestoreNode`/`RestoreAll` (persistBehaviour), `Toggle`,
  `Written` (setCookie), `Click` (folderClick) and `Load` (a successful init).
- `accordion.dfy` (module `Accordion`): the plugin object as a class
  `FolderTreeAccordion` whose fields are the settings, the root id, the nodes,
  the store, a log of emitted callbacks and notifications and whether the
  click handlers are bound. Its methods (`Init`, `PersistBehaviour`,
  `RestoreFolders`, `AddIds`, `FolderClick`, `SetCookie`, `FileClick`) update
  those fields in place, with loops where the plugin iterates, and are proved
  against the definitions in `Tree`.
- `roundtrip.dfy` (module `RoundTrip`): the promise of the header comment —
  state saved by clicks is restored on the next visit — as theorems, together
  with two lemmas showing that each of their preconditions is needed.

The round trip holds under two conditions, and the plugin guarantees neither:

1. Folder ids must be distinct. Sibling folders whose anchor texts differ only
   in case, or in a space versus an underscore, get the same id and share one
   cookie (`Slug.SlugCollisionExample`, `RoundTrip.CollidingIdsLoseState`).
   A single click round-trips without this condition
   (`RoundTrip.ReloadRestoresClick`); a session of clicks on several folders
   needs it (`RoundTrip.ReloadRestoresSession`).
2. A clicked folder's `expanded` class must agree with its children's
   visibility. Restoring a stored `'0'` hides the children but never removes
   `expanded`, so a folder rendered expanded with a stored `'0'` comes out
   inconsistent. The next click then stores the opposite of what it shows
   (`RoundTrip.StaleExpandedLosesState`). `RoundTrip.LoadConsistent` gives
   the condition on the markup and the store under which every folder loads
   consistent.

Where the description of the plugin and its code could be read differently,
the model follows the code. The id is `rootId + "_" + slug`, and
`.toLowerCase()` applies to the slug only, so the root id keeps its case.
Only the space character U+0020 is replaced, as the regular expression `/ /g`
does.

## Model

| member | source | states |
|---|---|---|
| `Slug.Lower` | jquery.persistent_folder_tree_accordion.js:162 | keeps the length; each character is lower-cased (ASCII), the rest unchanged |
| `Slug.ReplaceSpaces` | jquery.persistent_folder_tree_accordion.js:161 | keeps the length; every space becomes `_` and every other character is kept |
| `Slug.Slugify` | jquery.persistent_folder_tree_accordion.js:157-162 | the slug has the text's length, contains no space and no upper-case ASCII letter; spaces map to `_`, other characters to their lower case |
| `Slug.FolderId` | jquery.persistent_folder_tree_accordion.js:157-162 | the id is the root id (case kept), then `_`, then the slug of the anchor text |
| `Slug.SlugifyIdempotent` | jquery.persistent_folder_tree_accordion.js:157-162 | slugifying a slug changes nothing |
| `Slug.FolderIdCollides` | jquery.persistent_folder_tree_accordion.js:157-162 | under one root, two folders get the same id if and only if their anchor texts have the same slug |
| `Slug.SlugCollisionExample` | jquery.persistent_folder_tree_accordion.js:157-162 | "My Docs" and "my_docs" get the same id |
| `Tree.Read` | jquery.persistent_folder_tree_accordion.js:138-140 | reading a key gives its stored value if and only if the element has an id and that key is stored |
| `Tree.AssignId` | jquery.persistent_folder_tree_accordion.js:155-163 | a folder gets id `FolderId(root, anchor text)`; a non-folder is unchanged; nothing but the id changes |
| `Tree.AssignIds` | jquery.persistent_folder_tree_accordion.js:153-164 | same length; each node is treated as `AssignId` says, independently of the others |
| `Tree.AssignIdsAssigns` | jquery.persistent_folder_tree_accordion.js:153-164 | after addIds every folder has an id |
| `Tree.AssignIdsIdempotent` | jquery.persistent_folder_tree_accordion.js:155-162 | running addIds twice gives the same nodes as running it once |
| `Tree.AssignIdsDistinct` | jquery.persistent_folder_tree_accordion.js:155-162 | the assigned ids are pairwise distinct if and only if no two folders' anchor texts share a slug |
| `Tree.RestoreNode` | jquery.persistent_folder_tree_accordion.js:136-142 | stored '1': the folder becomes expanded with visible children; stored '0': children hidden, class kept; otherwise, or for a non-folder, the node is unchanged; isFolder, text and id never change |
| `Tree.RestoreAll` | jquery.persistent_folder_tree_accordion.js:136-142 | same length; each node is restored from its own cookie alone, the others untouched |
| `Tree.RestoreAllIdempotent` | jquery.persistent_folder_tree_accordion.js:136-142 | restoring twice from the same store gives the same nodes as restoring once |
| `Tree.RestoreConsistent` | jquery.persistent_folder_tree_accordion.js:138-141 | a restored folder is consistent iff its cookie reads '1', or reads '0' and it was not expanded, or reads neither and it was consistent |
| `Tree.Written` | jquery.persistent_folder_tree_accordion.js:121-126 | the store gains or replaces exactly the one key; the value is '1' with the configured expiry when expanded, '0' with no expiry otherwise; every other key is unchanged |
| `Tree.RestoreAfterWrite` | jquery.persistent_folder_tree_accordion.js:121-126 | a folder with the same id restored after a consistent folder's state was written gets that folder's visibility |
| `Tree.Toggle` | jquery.persistent_folder_tree_accordion.js:100-103 | class and children visibility both flip and nothing else changes; consistency is preserved |
| `Tree.Click` | jquery.persistent_folder_tree_accordion.js:89-112 | a non-folder click changes nothing; a folder click toggles exactly that node, and with cookies on rewrites exactly its key with its new state; with cookies off the store is unchanged |
| `Tree.Load` | jquery.persistent_folder_tree_accordion.js:43-51 | a successful init keeps the store; with cookies on every folder has an id; with cookies off the nodes are the markup |
| `Accordion.FolderTreeAccordion.constructor` | jquery.persistent_folder_tree_accordion.js:21-24 | the object holds the root id, markup, store and settings it was given, an empty log, and no bound handlers |
| `Accordion.FolderTreeAccordion.Init` | jquery.persistent_folder_tree_accordion.js:43-64 | fails iff cookies are on and the root id is missing or empty, and then with the plugin's message and nothing changed or bound; otherwise the page becomes `Load` of the old one and handlers are bound |
| `Accordion.FolderTreeAccordion.PersistBehaviour` | jquery.persistent_folder_tree_accordion.js:133-144 | with cookies on the nodes become `RestoreAll(AssignIds(...))` of the old ones, otherwise they are unchanged |
| `Accordion.FolderTreeAccordion.RestoreFolders` | jquery.persistent_folder_tree_accordion.js:136-142 | the loop leaves the nodes equal to `RestoreAll` of the old nodes |
| `Accordion.FolderTreeAccordion.AddIds` | jquery.persistent_folder_tree_accordion.js:153-164 | the loop leaves the nodes equal to `AssignIds` of the old nodes |
| `Accordion.FolderTreeAccordion.FolderClick` | jquery.persistent_folder_tree_accordion.js:89-112 | default prevented iff the parent item is a folder; nodes and store become `Click` of the old ones; for a folder exactly one callback and one onFolderClick are logged, otherwise nothing |
| `Accordion.FolderTreeAccordion.SetCookie` | jquery.persistent_folder_tree_accordion.js:121-126 | the store becomes `Written` of the old store under the node's id and current class |
| `Accordion.FolderTreeAccordion.FileClick` | jquery.persistent_folder_tree_accordion.js:76-79 | the default is not prevented; nodes and store are untouched; exactly one callback and one onFileClick are logged |
| `RoundTrip.Session` | jquery.persistent_folder_tree_accordion.js:89-126 | a sequence of clicks keeps the tree's shape and ids, keeps consistent folders consistent, and leaves unclicked nodes unchanged |
| `RoundTrip.ClickRecords` | jquery.persistent_folder_tree_accordion.js:100-126 | clicking a consistent folder stores its new visibility under its id and keeps it consistent |
| `RoundTrip.ClickKeepsRecord` | jquery.persistent_folder_tree_accordion.js:108-126 | a click leaves the stored state of every folder with a different id intact |
| `RoundTrip.SessionRecords` | jquery.persistent_folder_tree_accordion.js:89-126 | after a session of clicks on consistent folders with distinct ids, every clicked folder's visibility is stored under its id |
| `RoundTrip.ReloadRestoresSession` | jquery.persistent_folder_tree_accordion.js:15-16 | with distinct ids and consistent clicked folders, a reload of the same tree restores every clicked folder's visibility |
| `RoundTrip.ReloadRestoresClick` | jquery.persistent_folder_tree_accordion.js:15-16 | after one click on a consistent folder, a reload restores that folder's visibility, with no condition on ids |
| `RoundTrip.LoadConsistent` | jquery.persistent_folder_tree_accordion.js:136-142 | consistent markup loads consistent when no folder rendered expanded has a stored '0' |
| `RoundTrip.CollidingIdsLoseState` | jquery.persistent_folder_tree_accordion.js:121-126 | when two folders share an id, opening one and then closing the other leaves the first open but stored as closed, so a reload hides it |
| `RoundTrip.StaleExpandedLosesState` | jquery.persistent_folder_tree_accordion.js:140-141 | a folder rendered expanded with a stored '0' loads inconsistent; after one click it shows its children but a reload hides them |

## Left out

- jQuery event delegation and selector matching: each click handler is a direct method call on the index of the list item whose anchor was clicked. `bound` records that `init` attached the handlers.
- The slide animation, `.stop()` on rapid clicks and the timing of the completion callback: a toggle completes at once, and the callback, the notification and the cookie write follow it in order. Rapid repeated clicks are not modelled.
- The cookie library's expiry and date handling: the expiry is an opaque optional number of days stored next to the value. Entries never expire inside the model. A reload reads whatever the store holds.
- The user callbacks and the `trigger` notifications are log entries. `preventDefault` is the boolean that the click methods return.
- `$.extend` merging of options with the defaults: the constructor takes a finished settings record. `Tree.Defaults` holds the defaults.
- The `toggleAll` and `folderClass` settings are kept in the record but not read. `toggleAll` is unused by the plugin. Membership in the folder class is the node's `isFolder` flag.
- Lower-casing outside ASCII.
- Several direct anchors in one item, whose texts `.text()` would concatenate: every item has exactly one anchor.
- Folder items with no sub-list, or with several: every folder has exactly one. Without a sub-list the plugin's completion callback, and so its cookie write, never runs.
- The DOM tree structure: items are a flat sequence in document order, as `find` returns them.
- The JavaScript constructor calls `init` itself and the error propagates out of `new`. Here `Init` is called separately and returns `Fail` with the plugin's message.
- Registration as `$.fn.FolderTreeAccordion`.
