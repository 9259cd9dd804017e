/** The null-safe lookups every block extractor is built from. Each one reads one value
    relative to a block and yields '' whenever an element, an attribute or a pattern
    is missing; none of them can fail. */
module FieldRules {
  import opened Wrappers
  import opened Dom
  import Strings
  import StylePattern

  /** Nothing under `scope` matches `sel`. */
  ghost predicate Absent(d: Document, scope: nat, sel: Selector) {
    forall j: nat :: !IsMatchingDescendant(d, scope, sel, j)
  }

  /** `v` is the text of the first match of `sel` under `scope`, or '' if there is none. */
  ghost predicate IsTextOfFirst(d: Document, scope: nat, sel: Selector, v: string) {
    (Absent(d, scope, sel) ==> v == "") &&
    (forall j: nat :: IsFirstMatch(d, scope, sel, j) ==> v == d.elements[j].text)
  }

  /** `v` is the trimmed text of the first match of `sel` under `scope`, or ''. */
  ghost predicate IsTrimmedTextOfFirst(d: Document, scope: nat, sel: Selector, v: string) {
    (Absent(d, scope, sel) ==> v == "") &&
    (forall j: nat :: IsFirstMatch(d, scope, sel, j) ==> v == Strings.Trim(d.elements[j].text))
  }

  /** `v` is the resolved href of the first anchor under `scope`, or ''. */
  ghost predicate IsHrefOfFirst(d: Document, scope: nat, v: string) {
    (Absent(d, scope, "a") ==> v == "") &&
    (forall j: nat :: IsFirstMatch(d, scope, "a", j) ==> v == d.elements[j].href)
  }

  /** `v` is the `url("…")` capture of the first match's style, or ''. */
  ghost predicate IsStyleUrlOfFirst(d: Document, scope: nat, sel: Selector, v: string) {
    (Absent(d, scope, sel) ==> v == "") &&
    (forall j: nat :: IsFirstMatch(d, scope, sel, j) ==> v == StylePattern.StyleUrl(StyleOf(d, j)))
  }

  /** `v` is the text of the k-th match (from 0, in document order), or '' if there are
      at most k matches. */
  predicate IsRowText(d: Document, scope: nat, sel: Selector, k: nat, v: string) {
    var rows := QueryAll(d, scope, sel);
    (k >= |rows| ==> v == "") && (k < |rows| ==> rows[k] < |d.elements| && v == d.elements[rows[k]].text)
  }

  /** A first-match rule pins its value down: at most one string satisfies it. */
  lemma TextOfFirstDetermined(d: Document, scope: nat, sel: Selector, v: string, w: string)
    requires IsTextOfFirst(d, scope, sel, v) && IsTextOfFirst(d, scope, sel, w)
    ensures v == w
  {
    match Query(d, scope, sel)
    case None =>
    case Some(j) =>
  }

  /** `el ? el.textContent || '' : ''` where `el = scope.querySelector(sel)`. */
  function FirstText(d: Document, scope: nat, sel: Selector): (r: string)
    ensures IsTextOfFirst(d, scope, sel, r)
  {
    match Query(d, scope, sel)
    case None => ""
    case Some(j) => d.elements[j].text
  }

  /** `document.querySelector(sel)?.textContent || ''`: the text of the first element
      of the whole document that matches `sel`, or ''. */
  function DocText(d: Document, sel: Selector): (r: string)
    ensures (forall j: nat :: j < |d.elements| ==> sel !in d.elements[j].matches) ==> r == ""
    ensures forall j: nat :: (j < |d.elements| && sel in d.elements[j].matches &&
      (forall k: nat :: k < j ==> sel !in d.elements[k].matches)) ==> r == d.elements[j].text
  {
    match DocQuery(d, sel)
    case None => ""
    case Some(j) => d.elements[j].text
  }

  /** `a ? a.href : ''` where `a = scope.querySelector('a')`. */
  function FirstHref(d: Document, scope: nat): (r: string)
    ensures IsHrefOfFirst(d, scope, r)
  {
    match Query(d, scope, "a")
    case None => ""
    case Some(j) => d.elements[j].href
  }

  /** `[...scope.querySelectorAll(sel)][k]?.textContent || ''`: the text of the k-th
      match in document order, '' when there are not that many. */
  function NthText(d: Document, scope: nat, sel: Selector, k: nat): (r: string)
    ensures IsRowText(d, scope, sel, k, r)
  {
    var rows := QueryAll(d, scope, sel);
    if k < |rows| then
      assert rows[k] in rows;
      d.elements[rows[k]].text
    else ""
  }

  /** The `style` attribute of element `j`, '' when it has none. */
  function StyleOf(d: Document, j: nat): string
    requires j < |d.elements|
  {
    GetAttribute(d, j, "style").GetOr("")
  }

  /** The URL in the `url("…")` of the first match's inline style; '' when the element,
      its style or the pattern is missing. */
  function StyleUrlOf(d: Document, scope: nat, sel: Selector): (r: string)
    ensures IsStyleUrlOfFirst(d, scope, sel, r)
  {
    match Query(d, scope, sel)
    case None => ""
    case Some(j) => StylePattern.StyleUrl(StyleOf(d, j))
  }

  /** `section?.querySelector(sel)` then its text, '' if either is missing. */
  function TextIn(d: Document, section: Option<nat>, sel: Selector): (r: string)
    ensures section.None? ==> r == ""
    ensures section.Some? ==> IsTextOfFirst(d, section.value, sel, r)
  {
    match section
    case None => ""
    case Some(s) => FirstText(d, s, sel)
  }

  /** `el && el.textContent ? el.textContent.trim() : ''` where
      `el = section?.querySelector(sel)`. */
  function TrimmedTextIn(d: Document, section: Option<nat>, sel: Selector): (r: string)
    ensures section.None? ==> r == ""
    ensures section.Some? ==> IsTrimmedTextOfFirst(d, section.value, sel, r)
    ensures Strings.NoEdgeWhiteSpace(r)
  {
    var t := TextIn(d, section, sel);
    if t != "" then Strings.Trim(t) else ""
  }

  /** `block.closest(anc)?.nextElementSibling`: the element after the nearest
      inclusive ancestor of `block` that matches `anc`, at the same level; None when
      either link of the chain is missing. */
  function SiblingOfClosest(d: Document, block: nat, anc: Selector): (r: Option<nat>)
    requires block < |d.elements|
    ensures (forall a: nat :: a < |d.elements| && IsInclusiveAncestor(d, a, block) ==> anc !in d.elements[a].matches)
      ==> r.None?
    ensures r.Some? ==> exists a: nat :: (a < r.value < |d.elements| && IsInclusiveAncestor(d, a, block) &&
      anc in d.elements[a].matches && d.elements[r.value].parent == d.elements[a].parent)
    ensures Closest(d, block, anc).None? ==> r.None?
    ensures Closest(d, block, anc).Some? ==> r == NextSibling(d, Closest(d, block, anc).value)
  {
    match Closest(d, block, anc)
    case None => None
    case Some(a) => NextSibling(d, a)
  }
}
