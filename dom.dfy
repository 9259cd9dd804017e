/** An already-rendered page, as the route handlers see it inside `page.evaluate`.

    The page is a list of elements in document order (a pre-order walk of the tree).
    Each element names its parent by index, so the tree, the ancestor relation and
    the next-element-sibling relation can all be read off the list. CSS selectors are
    not parsed: each element carries the set of selectors it matches. A browser matches
    a selector against the whole document even when the query is scoped to an element
    (`el.querySelector('.a .b')`), so one set per element is enough for every query. */
module Dom {
  import opened Wrappers

  type Selector = string

  datatype Element = Element(
    parent: Option<nat>,            // index of the parent element; None at the top level
    matches: set<Selector>,         // the selectors this element matches
    text: string,                   // `textContent`
    href: string,                   // the browser-resolved `href` property ('' if none)
    attributes: map<string, string>)

  /** `a` is a proper ancestor of element `i`. The `p < i` guard only serves
      termination; in a `Document` every parent precedes its child anyway. */
  predicate IsAncestorIn(es: seq<Element>, a: nat, i: nat)
    requires i < |es|
    decreases i
  {
    match es[i].parent
    case None => false
    case Some(p) => p < i && (p == a || IsAncestorIn(es, a, p))
  }

  predicate ParentsPrecede(es: seq<Element>) {
    forall i | 0 <= i < |es| :: es[i].parent.Some? ==> es[i].parent.value < i
  }

  /** Pre-order: an element's parent is the element just before it or one of that
      element's ancestors. */
  predicate InPreorder(es: seq<Element>) {
    forall i | 0 < i < |es| ::
      es[i].parent.Some? ==> es[i].parent.value == i - 1 || IsAncestorIn(es, es[i].parent.value, i - 1)
  }

  datatype Doc = Doc(title: string, elements: seq<Element>)

  /** A well-formed page: `document.title` and its elements in document order. */
  type Document = d: Doc | ParentsPrecede(d.elements) && InPreorder(d.elements) witness Doc("", [])

  predicate Increasing(s: seq<nat>) {
    forall i, j | 0 <= i < j < |s| :: s[i] < s[j]
  }

  /** `j` is a descendant of `scope` that matches `sel`. */
  predicate IsMatchingDescendant(d: Document, scope: nat, sel: Selector, j: nat) {
    j < |d.elements| && IsAncestorIn(d.elements, scope, j) && sel in d.elements[j].matches
  }

  /** `j` is the first descendant of `scope`, in document order, that matches `sel`. */
  predicate IsFirstMatch(d: Document, scope: nat, sel: Selector, j: nat) {
    IsMatchingDescendant(d, scope, sel, j) &&
    forall k: nat :: IsMatchingDescendant(d, scope, sel, k) ==> j <= k
  }

  lemma {:induction false} AncestorPrecedes(es: seq<Element>, a: nat, i: nat)
    requires i < |es| && IsAncestorIn(es, a, i)
    ensures a < i
    decreases i
  {
    var p := es[i].parent.value;
    if p != a {
      AncestorPrecedes(es, a, p);
    }
  }

  function ScanDescendants(d: Document, scope: nat, sel: Selector, from: nat): (r: seq<nat>)
    decreases |d.elements| - from
    ensures Increasing(r)
    ensures forall j :: j in r ==> from <= j
    ensures forall j :: j in r <==> from <= j && IsMatchingDescendant(d, scope, sel, j)
  {
    if from >= |d.elements| then []
    else if IsMatchingDescendant(d, scope, sel, from) then
      var rest := ScanDescendants(d, scope, sel, from + 1);
      assert forall k | 0 <= k < |rest| :: rest[k] in rest;
      [from] + rest
    else ScanDescendants(d, scope, sel, from + 1)
  }

  /** `scope.querySelectorAll(sel)`: every matching descendant, in document order. */
  function QueryAll(d: Document, scope: nat, sel: Selector): (r: seq<nat>)
    ensures Increasing(r)
    ensures forall j :: j in r <==> IsMatchingDescendant(d, scope, sel, j)
  {
    forall j | IsMatchingDescendant(d, scope, sel, j) ensures scope + 1 <= j {
      AncestorPrecedes(d.elements, scope, j);
    }
    ScanDescendants(d, scope, sel, scope + 1)
  }

  lemma {:induction false} HeadIsLeast(s: seq<nat>, j: nat)
    requires Increasing(s) && j in s
    ensures s[0] <= j
  {
    var k :| 0 <= k < |s| && s[k] == j;
    if k > 0 {
      assert s[0] < s[k];
    }
  }

  /** `scope.querySelector(sel)`: the first matching descendant, or None. */
  function Query(d: Document, scope: nat, sel: Selector): (r: Option<nat>)
    ensures r.None? <==> forall j: nat :: !IsMatchingDescendant(d, scope, sel, j)
    ensures r.Some? ==> IsFirstMatch(d, scope, sel, r.value)
  {
    var all := QueryAll(d, scope, sel);
    if all == [] then None
    else
      assert all[0] in all;
      forall j | IsMatchingDescendant(d, scope, sel, j) ensures all[0] <= j {
        HeadIsLeast(all, j);
      }
      Some(all[0])
  }

  function ScanDocument(d: Document, sel: Selector, from: nat): (r: seq<nat>)
    decreases |d.elements| - from
    ensures Increasing(r)
    ensures forall j :: j in r ==> from <= j
    ensures forall j: nat :: j in r <==> from <= j < |d.elements| && sel in d.elements[j].matches
  {
    if from >= |d.elements| then []
    else if sel in d.elements[from].matches then
      var rest := ScanDocument(d, sel, from + 1);
      assert forall k | 0 <= k < |rest| :: rest[k] in rest;
      [from] + rest
    else ScanDocument(d, sel, from + 1)
  }

  /** `document.querySelectorAll(sel)`: every matching element, in document order. */
  function DocQueryAll(d: Document, sel: Selector): (r: seq<nat>)
    ensures Increasing(r)
    ensures forall j: nat :: j in r <==> j < |d.elements| && sel in d.elements[j].matches
  {
    ScanDocument(d, sel, 0)
  }

  /** `document.querySelector(sel)`: the first matching element, or None. */
  function DocQuery(d: Document, sel: Selector): (r: Option<nat>)
    ensures r.None? <==> forall j: nat :: j < |d.elements| ==> sel !in d.elements[j].matches
    ensures r.Some? ==> (r.value < |d.elements| && sel in d.elements[r.value].matches &&
      forall k: nat :: k < r.value ==> sel !in d.elements[k].matches)
  {
    var all := DocQueryAll(d, sel);
    if all == [] then None
    else
      assert all[0] in all;
      forall k: nat | k < all[0] ensures sel !in d.elements[k].matches {
        if sel in d.elements[k].matches {
          HeadIsLeast(all, k);
        }
      }
      Some(all[0])
  }

  /** `i` itself or one of its ancestors. */
  predicate IsInclusiveAncestor(d: Document, a: nat, i: nat)
    requires i < |d.elements|
  {
    a == i || IsAncestorIn(d.elements, a, i)
  }

  /** `el.closest(sel)`: the nearest element, starting from `i` itself and walking up,
      that matches `sel`. Ancestors precede their descendants, so the nearest one is
      the one with the largest index. */
  function Closest(d: Document, i: nat, sel: Selector): (r: Option<nat>)
    requires i < |d.elements|
    decreases i
    ensures r.Some? ==> r.value <= i && IsInclusiveAncestor(d, r.value, i) && sel in d.elements[r.value].matches
    ensures forall a: nat :: a < |d.elements| && IsInclusiveAncestor(d, a, i) && sel in d.elements[a].matches ==>
      r.Some? && a <= r.value
  {
    if sel in d.elements[i].matches then
      forall a: nat | IsAncestorIn(d.elements, a, i) ensures a <= i {
        AncestorPrecedes(d.elements, a, i);
      }
      Some(i)
    else
      match d.elements[i].parent
      case None => None
      case Some(p) => Closest(d, p, sel)
  }

  /** The first position at or after `from` whose element has parent `p`. */
  function SiblingFrom(es: seq<Element>, p: Option<nat>, from: nat): (r: Option<nat>)
    decreases |es| - from
    ensures r.Some? ==> (from <= r.value < |es| && es[r.value].parent == p &&
      forall k :: from <= k < r.value ==> es[k].parent != p)
    ensures r.None? ==> forall k :: from <= k < |es| ==> es[k].parent != p
  {
    if from >= |es| then None
    else if es[from].parent == p then Some(from)
    else SiblingFrom(es, p, from + 1)
  }

  /** `el.nextElementSibling`: the next element after `i`, in document order, that has
      the same parent; None if there is none. */
  function NextSibling(d: Document, i: nat): (r: Option<nat>)
    requires i < |d.elements|
    ensures r.Some? ==> (i < r.value < |d.elements| &&
      d.elements[r.value].parent == d.elements[i].parent &&
      forall k :: i < k < r.value ==> d.elements[k].parent != d.elements[i].parent)
    ensures r.None? ==> forall k :: i < k < |d.elements| ==> d.elements[k].parent != d.elements[i].parent
  {
    SiblingFrom(d.elements, d.elements[i].parent, i + 1)
  }

  /** `el.getAttribute(name)`. */
  function GetAttribute(d: Document, i: nat, name: string): Option<string>
    requires i < |d.elements|
  {
    if name in d.elements[i].attributes then Some(d.elements[i].attributes[name]) else None
  }
}
