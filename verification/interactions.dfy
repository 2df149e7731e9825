/**
 * The player's list of pickups in range (PlayerInteractions.cs): insertion
 * without duplicates, removal, the highlight that marks exactly the first
 * entry, and the interact action that targets it.
 */
module Interactions {
  import opened Wrappers

  /** A pickup object, by reference. */
  type PickupRef = nat

  datatype Interactions = Interactions(inRange: seq<PickupRef>, highlighted: set<PickupRef>)

  const Initial := Interactions([], {})

  predicate NoDuplicates(s: seq<PickupRef>)
  {
    forall a, b :: 0 <= a < b < |s| ==> s[a] != s[b]
  }

  /** Exactly the first entry of the list is highlighted. */
  predicate HighlightsFirst(st: Interactions)
  {
    forall i :: 0 <= i < |st.inRange| ==> (st.inRange[i] in st.highlighted <==> i == 0)
  }

  /** The loop of `UpdateHighlight` from position i on: entry 0 is lit, every
      later entry is unlit; pickups outside the list keep their state. */
  function HighlightFrom(list: seq<PickupRef>, i: nat, lit: set<PickupRef>): (r: set<PickupRef>)
    requires i <= |list|
    ensures forall p :: p !in list[i..] ==> (p in r <==> p in lit)
    ensures NoDuplicates(list) ==> forall k :: i <= k < |list| ==> (list[k] in r <==> k == 0)
    decreases |list| - i
  {
    if i == |list| then lit
    else
      var r := HighlightFrom(list, i + 1, if i == 0 then lit + {list[0]} else lit - {list[i]});
      assert forall p :: p in list[i + 1..] ==> p in list[i..];
      assert NoDuplicates(list) ==> list[i] !in list[i + 1..];
      r
  }

  function UpdateHighlight(list: seq<PickupRef>, lit: set<PickupRef>): (r: set<PickupRef>)
    ensures NoDuplicates(list) ==> HighlightsFirst(Interactions(list, r))
    ensures forall p :: p !in list ==> (p in r <==> p in lit)
  {
    assert list[0..] == list;
    HighlightFrom(list, 0, lit)
  }

  /** `List.Remove`: drop the first occurrence. */
  function RemoveFirst(s: seq<PickupRef>, p: PickupRef): (r: seq<PickupRef>)
    ensures p in s ==> |r| == |s| - 1
    ensures p !in s ==> r == s
    ensures forall q :: q in r ==> q in s
    ensures forall q :: q in s && q != p ==> q in r
    ensures NoDuplicates(s) ==> NoDuplicates(r) && p !in r
  {
    if |s| == 0 then []
    else if s[0] == p then s[1..]
    else
      var rest := RemoveFirst(s[1..], p);
      assert NoDuplicates(s) ==> NoDuplicates(s[1..]) && s[0] !in s[1..];
      [s[0]] + rest
  }

  /** `NotifyItemInRange`: append the pickup unless it is already listed. */
  function NotifyItemInRange(st: Interactions, p: PickupRef): (r: Interactions)
    ensures p in st.inRange ==> r == st
    ensures p !in st.inRange ==> r.inRange == st.inRange + [p]
    ensures p !in st.inRange ==> forall q :: q !in r.inRange ==> (q in r.highlighted <==> q in st.highlighted)
  {
    if p in st.inRange then st
    else
      var list := st.inRange + [p];
      Interactions(list, UpdateHighlight(list, st.highlighted))
  }

  /** `NotifyItemOutOfRange`: unhighlight and remove a listed pickup. */
  function NotifyItemOutOfRange(st: Interactions, p: PickupRef): (r: Interactions)
    ensures p !in st.inRange ==> r == st
    ensures p in st.inRange ==> r.inRange == RemoveFirst(st.inRange, p)
    ensures p in st.inRange && NoDuplicates(st.inRange) ==> p !in r.inRange && p !in r.highlighted
  {
    if p !in st.inRange then st
    else
      var list := RemoveFirst(st.inRange, p);
      Interactions(list, UpdateHighlight(list, st.highlighted - {p}))
  }

  /** `TryPickupCurrentItem`: the interact action targets the first entry. */
  function CurrentPickup(st: Interactions): (r: Option<PickupRef>)
    ensures r.None? <==> st.inRange == []
    ensures r.Some? ==> r.value == st.inRange[0] && (HighlightsFirst(st) ==> r.value in st.highlighted)
  {
    if |st.inRange| > 0 then Some(st.inRange[0]) else None
  }

  /** The list keeps no duplicates and exactly its first entry lit. */
  predicate Good(st: Interactions)
  {
    NoDuplicates(st.inRange) && HighlightsFirst(st)
  }

  lemma InRangeKeepsGood(st: Interactions, p: PickupRef)
    requires Good(st)
    ensures Good(NotifyItemInRange(st, p))
  {
    if p !in st.inRange {
      var list := st.inRange + [p];
      assert forall a :: 0 <= a < |st.inRange| ==> list[a] == st.inRange[a];
    }
  }

  lemma OutOfRangeKeepsGood(st: Interactions, p: PickupRef)
    requires Good(st)
    ensures Good(NotifyItemOutOfRange(st, p))
  {
  }

  datatype RangeEvent = Entered(p: PickupRef) | Left(p: PickupRef)

  function Step(st: Interactions, e: RangeEvent): Interactions
  {
    match e
    case Entered(p) => NotifyItemInRange(st, p)
    case Left(p) => NotifyItemOutOfRange(st, p)
  }

  function Run(st: Interactions, events: seq<RangeEvent>): Interactions
    decreases |events|
  {
    if |events| == 0 then st else Run(Step(st, events[0]), events[1..])
  }

  /** From the initial state, after any sequence of range events, no pickup
      is listed twice and exactly the first listed pickup is highlighted, so
      the interact action always targets the highlighted one. */
  lemma {:induction false} RunKeepsGood(st: Interactions, events: seq<RangeEvent>)
    requires Good(st)
    ensures Good(Run(st, events))
    decreases |events|
  {
    if |events| > 0 {
      match events[0] {
        case Entered(p) => InRangeKeepsGood(st, p);
        case Left(p) => OutOfRangeKeepsGood(st, p);
      }
      RunKeepsGood(Step(st, events[0]), events[1..]);
    }
  }

  lemma InitialRunGood(events: seq<RangeEvent>)
    ensures Good(Run(Initial, events))
    ensures var st := Run(Initial, events);
            CurrentPickup(st).Some? ==> CurrentPickup(st).value in st.highlighted
  {
    RunKeepsGood(Initial, events);
  }
}
