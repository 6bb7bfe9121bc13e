/** The accordion's open-item state (components/ui/accordion.tsx): the list of
    open item ids, its initial value, and the toggle that either keeps several
    items open at once or at most one. */
module Accordion {
  import opened Shared

  /** No id appears twice in the open list. */
  predicate NoDuplicates(s: seq<string>) {
    forall i, j :: 0 <= i < j < |s| ==> s[i] != s[j]
  }

  /** `defaultOpen ? [defaultOpen] : []`: an empty or absent default opens
      nothing. */
  function InitialOpen(defaultOpen: Option<string>): (r: seq<string>)
    ensures forall id :: id in r <==> defaultOpen == Some(id) && id != ""
    ensures |r| <= 1 && NoDuplicates(r)
  {
    if defaultOpen.Some? && defaultOpen.value != "" then [defaultOpen.value] else []
  }

  /** `prev.filter((item) => item !== id)`. */
  function Remove(s: seq<string>, id: string): (r: seq<string>)
    ensures forall x :: x in r <==> x in s && x != id
    ensures NoDuplicates(s) ==> NoDuplicates(r)
    ensures |r| <= |s|
    decreases |s|
  {
    if s == [] then []
    else if s[0] == id then Remove(s[1..], id)
    else
      var rest := Remove(s[1..], id);
      ConsNoDuplicates(s, rest);
      [s[0]] + rest
  }

  /** Putting the head back in front of a duplicate-free sub-list that does not
      contain it keeps it duplicate-free. */
  lemma ConsNoDuplicates(s: seq<string>, rest: seq<string>)
    requires s != [] && NoDuplicates(s) ==> NoDuplicates(rest) && s[0] !in rest
    ensures s != [] && NoDuplicates(s) ==> NoDuplicates([s[0]] + rest)
  {
    if s != [] && NoDuplicates(s) {
      var r := [s[0]] + rest;
      forall i, j | 0 <= i < j < |r| ensures r[i] != r[j] {
        if i == 0 {
          assert r[j] == rest[j - 1];
        } else {
          assert r[i] == rest[i - 1] && r[j] == rest[j - 1];
        }
      }
    }
  }

  /** The updater `toggleItem(id)` hands to `setOpenItems`. Several open items:
      close `id` if it is open, otherwise open it after the others. One open
      item: close everything if `id` is the first open item, otherwise open
      `id` alone. */
  function Toggle(prev: seq<string>, id: string, allowMultiple: bool): (r: seq<string>)
    ensures allowMultiple ==> (id in r <==> id !in prev)
    ensures allowMultiple ==> forall x :: x != id ==> (x in r <==> x in prev)
    ensures allowMultiple && NoDuplicates(prev) ==> NoDuplicates(r)
    ensures !allowMultiple ==> |r| <= 1 && forall x :: x in r ==> x == id
    ensures !allowMultiple ==> (id in r <==> !(|prev| > 0 && prev[0] == id))
  {
    if allowMultiple then
      if id in prev then Remove(prev, id) else prev + [id]
    else
      if |prev| > 0 && prev[0] == id then [] else [id]
  }

  /** `openItems.includes(item.id)`: whether an item is shown expanded. */
  predicate IsOpen(openItems: seq<string>, id: string)
    ensures IsOpen(openItems, id) <==> exists k :: 0 <= k < |openItems| && openItems[k] == id
  {
    id in openItems
  }

  /** Filtering out an id that was just appended gives back the list. */
  lemma {:induction false} RemoveAppended(s: seq<string>, id: string)
    requires id !in s
    ensures Remove(s + [id], id) == s
    decreases |s|
  {
    if s == [] {
      assert [] + [id] == [id];
    } else {
      assert (s + [id])[1..] == s[1..] + [id];
      RemoveAppended(s[1..], id);
      assert [s[0]] + s[1..] == s;
    }
  }

  /** With several items allowed, opening a closed item and toggling it again
      restores the list exactly, and toggling any item twice restores every
      item's open state. */
  lemma ToggleTwiceMultiple(prev: seq<string>, id: string)
    ensures id !in prev ==> Toggle(Toggle(prev, id, true), id, true) == prev
    ensures forall x :: IsOpen(Toggle(Toggle(prev, id, true), id, true), x) <==> IsOpen(prev, x)
  {
    if id !in prev {
      RemoveAppended(prev, id);
    }
  }

  /** With one item allowed, toggling twice from a state with at most one open
      item restores that item's open state. */
  lemma ToggleTwiceSingle(prev: seq<string>, id: string)
    requires |prev| <= 1
    ensures IsOpen(Toggle(Toggle(prev, id, false), id, false), id) <==> IsOpen(prev, id)
  {
  }

  /** The accordion component's state: its open items and its mode. */
  class AccordionState {
    var openItems: seq<string>
    const allowMultiple: bool

    /** No item is listed twice, and in single mode at most one is open. */
    ghost predicate Valid()
      reads this
    {
      NoDuplicates(openItems) && (!allowMultiple ==> |openItems| <= 1)
    }

    constructor (defaultOpen: Option<string>, allowMultiple: bool)
      ensures Valid()
      ensures this.allowMultiple == allowMultiple && openItems == InitialOpen(defaultOpen)
    {
      this.allowMultiple := allowMultiple;
      openItems := InitialOpen(defaultOpen);
    }

    /** A click on an item's header. */
    method ToggleItem(id: string)
      requires Valid()
      modifies this
      ensures Valid()
      ensures openItems == Toggle(old(openItems), id, allowMultiple)
    {
      openItems := Toggle(openItems, id, allowMultiple);
    }
  }
}
