/**
 * Derivation of a folder's identifier from the tree's root id and the text of
 * the folder's anchor: spaces become underscores and the text is lower-cased.
 * Lower-casing is modelled over ASCII only.
 */
module Slug {

  /** ASCII lower-casing of one character; every other character is kept. */
  function LowerChar(c: char): char {
    if 'A' <= c <= 'Z' then (c as int + 32) as char else c
  }

  /** String.prototype.toLowerCase, restricted to ASCII. */
  function Lower(s: string): (r: string)
    ensures |r| == |s|
    ensures forall k :: 0 <= k < |s| ==> r[k] == LowerChar(s[k])
  {
    if s == [] then [] else [LowerChar(s[0])] + Lower(s[1..])
  }

  /** `replace(/ /g, '_')`: every space becomes an underscore. */
  function ReplaceSpaces(s: string): (r: string)
    ensures |r| == |s|
    ensures forall k :: 0 <= k < |s| ==> r[k] == (if s[k] == ' ' then '_' else s[k])
  {
    if s == [] then [] else [if s[0] == ' ' then '_' else s[0]] + ReplaceSpaces(s[1..])
  }

  /** The anchor-text part of a folder id: spaces replaced, then lower-cased. */
  function Slugify(text: string): (r: string)
    ensures |r| == |text|
    ensures ' ' !in r
    ensures forall k :: 0 <= k < |r| ==> !('A' <= r[k] <= 'Z')
    ensures forall k :: 0 <= k < |text| && text[k] != ' ' ==> r[k] == LowerChar(text[k])
    ensures forall k :: 0 <= k < |text| && text[k] == ' ' ==> r[k] == '_'
  {
    Lower(ReplaceSpaces(text))
  }

  /** The id given to a folder: the root id, an underscore, then the slug of its anchor text. */
  function FolderId(rootId: string, text: string): (r: string)
    ensures |r| == |rootId| + 1 + |text|
    ensures r[..|rootId|] == rootId && r[|rootId|] == '_'
    ensures r[|rootId| + 1..] == Slugify(text)
  {
    rootId + "_" + Slugify(text)
  }

  /** Slugifying is idempotent: a slug contains neither spaces nor upper-case letters. */
  lemma SlugifyIdempotent(text: string)
    ensures Slugify(Slugify(text)) == Slugify(text)
  {
  }

  /** Under one root, two folders share an id exactly when their anchor texts share a slug. */
  lemma FolderIdCollides(rootId: string, a: string, b: string)
    ensures FolderId(rootId, a) == FolderId(rootId, b) <==> Slugify(a) == Slugify(b)
  {
  }

  /** Distinct anchor texts can share an id: case and spaces versus underscores are not distinguished. */
  lemma SlugCollisionExample()
    ensures FolderId("tree", "My Docs") == FolderId("tree", "my_docs")
  {
    assert Slugify("My Docs") == "my_docs";
    assert Slugify("my_docs") == "my_docs";
  }
}
