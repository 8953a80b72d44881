/** Listener slots for proxy nodes: kept across re-files, handed out lowest first, borrowed and given back.
    `src/mihomo.rs`. */
module OutboundSlots {
  import opened Prelude

  const OUTBOUND_PORT_BASE: nat := 7900
  const RESERVED_PORTS: set<nat> := {9090}
  const MAX_OUTBOUNDS: nat := 65535 - OUTBOUND_PORT_BASE

  /** How many nodes can have a slot: every port above the base but the reserved one. */
  const CAPACITY: nat := MAX_OUTBOUNDS - 1

  type Assignments = map<string, nat>

  function OutboundPort(slot: nat): nat
  {
    OUTBOUND_PORT_BASE + slot
  }

  /** The slots up to `n` that may be handed out. */
  ghost function Slots(n: nat): set<nat>
  {
    set s: nat | 1 <= s <= n && OutboundPort(s) !in RESERVED_PORTS
  }

  lemma {:induction false} SlotsSize(n: nat)
    ensures |Slots(n)| == if n < 1190 then n else n - 1
  {
    hide Slots;
    if n > 0 {
      SlotsSize(n - 1);
    }
    NextSlot(n);
  }

  lemma NextSlot(n: nat)
    ensures n == 0 ==> Slots(n) == {}
    ensures n == 1190 ==> Slots(n) == Slots(n - 1)
    ensures n > 0 && n != 1190 ==> n !in Slots(n - 1) && Slots(n) == Slots(n - 1) + {n}
  {
  }

  // ----------------------------------------------------------------------------------------------- the specification

  /** The lowest slot from `slot` on that is neither taken nor reserved. */
  function LeastFree(slot: nat, taken: set<nat>): (found: Option<nat>)
    requires 1 <= slot <= MAX_OUTBOUNDS + 1
    requires Slots(slot - 1) <= taken
    ensures found.Some? ==>
              found.value in Slots(MAX_OUTBOUNDS) && found.value !in taken && Slots(found.value - 1) <= taken
    ensures found.None? ==> Slots(MAX_OUTBOUNDS) <= taken
    decreases MAX_OUTBOUNDS + 1 - slot
  {
    if slot > MAX_OUTBOUNDS then None
    else if slot !in taken && OutboundPort(slot) !in RESERVED_PORTS then Some(slot)
    else LeastFree(slot + 1, taken)
  }

  /** One node filed: where it is, or else in the lowest free slot, or nowhere once there is none. */
  function File(slots: Assignments, node: string): Assignments
  {
    if node in slots then slots
    else
      match LeastFree(1, slots.Values)
      case Some(slot) => slots[node := slot]
      case None => slots
  }

  function FileAll(slots: Assignments, nodes: seq<string>): Assignments
  {
    if nodes == [] then slots
    else File(FileAll(slots, nodes[..|nodes| - 1]), nodes[|nodes| - 1])
  }

  function Retained(slots: Assignments, nodes: seq<string>): Assignments
  {
    map node | node in slots && node in nodes :: slots[node]
  }

  function Refiled(slots: Assignments, nodes: seq<string>): Assignments
  {
    FileAll(Retained(slots, nodes), nodes)
  }

  /** No two nodes share a slot, and every slot is one that may be handed out. */
  ghost predicate Sound(slots: Assignments)
  {
    && slots.Values <= Slots(MAX_OUTBOUNDS)
    && forall a, b :: a in slots && b in slots && slots[a] == slots[b] ==> a == b
  }

  // ------------------------------------------------------------------------------------------------------- counting

  lemma {:induction false} ValuesCount(slots: Assignments)
    requires Sound(slots)
    ensures |slots.Values| == |slots|
    decreases |slots|
  {
    hide LeastFree, Slots;
    if slots == map[] {
      assert slots.Values == {};
    } else {
      var node :| node in slots;
      var rest := slots - {node};
      assert slots.Values == rest.Values + {slots[node]} by {
        forall slot | slot in slots.Values
          ensures slot in rest.Values + {slots[node]}
        {
          var n :| n in slots && slots[n] == slot;
          assert n != node ==> n in rest && rest[n] == slot;
        }
      }
      assert slots[node] !in rest.Values;
      assert slots.Keys == rest.Keys + {node};
      ValuesCount(rest);
    }
  }

  lemma SubsetSize<T>(a: set<T>, b: set<T>)
    requires a <= b
    ensures |a| <= |b|
    ensures |a| == |b| ==> a == b
  {
    assert b == a + (b - a);
  }

  /** A sound assignment fits the ports there are, and fills them only when nothing is free. */
  lemma SoundFits(slots: Assignments)
    requires Sound(slots)
    ensures |slots| <= CAPACITY
    ensures LeastFree(1, slots.Values).None? <==> |slots| == CAPACITY
  {
    ValuesCount(slots);
    SlotsSize(MAX_OUTBOUNDS);
    SubsetSize(slots.Values, Slots(MAX_OUTBOUNDS));
    var found := LeastFree(1, slots.Values);
    if found.None? {
      assert slots.Values == Slots(MAX_OUTBOUNDS);
    } else {
      assert slots.Values != Slots(MAX_OUTBOUNDS);
    }
  }

  // ---------------------------------------------------------------------------------------------------- what it keeps

  lemma FileKeepsSound(slots: Assignments, node: string)
    requires Sound(slots)
    ensures Sound(File(slots, node))
    ensures forall other :: other in slots ==> other in File(slots, node) && File(slots, node)[other] == slots[other]
    ensures File(slots, node).Keys <= slots.Keys + {node}
    ensures node in File(slots, node) <==> node in slots || |slots| < CAPACITY
  {
    SoundFits(slots);
    hide Slots;
    if node in slots || LeastFree(1, slots.Values).None? {
      return;
    }
    var after := File(slots, node);
    forall a, b | a in after && b in after && after[a] == after[b]
      ensures a == b
    {
      assert a != node ==> after[a] in slots.Values;
      assert b != node ==> after[b] in slots.Values;
    }
  }

  /** Filing keeps the assignment sound, moves nobody, and files nobody who did not ask. */
  lemma {:induction false} FileAllKeeps(slots: Assignments, nodes: seq<string>)
    requires Sound(slots)
    ensures Sound(FileAll(slots, nodes))
    ensures forall node :: node in slots ==>
              node in FileAll(slots, nodes) && FileAll(slots, nodes)[node] == slots[node]
    ensures forall node :: node in FileAll(slots, nodes) ==> node in slots || node in nodes
    ensures forall node :: node in nodes && node !in FileAll(slots, nodes) ==> |FileAll(slots, nodes)| == CAPACITY
  {
    if nodes != [] {
      var n := |nodes| - 1;
      FileAllKeeps(slots, nodes[..n]);
      var before, last := FileAll(slots, nodes[..n]), nodes[n];
      assert FileAll(slots, nodes) == File(before, last);
      hide FileAll, File, Sound;
      FileKeepsSound(before, last);
      SoundFits(before);
      SoundFits(File(before, last));
      SubsetSize(before.Keys, File(before, last).Keys);
    }
  }

  lemma RetainedKeeps(slots: Assignments, nodes: seq<string>)
    requires Sound(slots)
    ensures Sound(Retained(slots, nodes))
  {
    hide Slots;
    forall slot | slot in Retained(slots, nodes).Values
      ensures slot in slots.Values
    {
      var node :| node in Retained(slots, nodes) && Retained(slots, nodes)[node] == slot;
      assert node in slots;
    }
  }

  /** A re-file leaves every node that is still wanted where it was, files only wanted nodes, and leaves one out only
      when every port is in use. */
  lemma RefiledKeeps(slots: Assignments, nodes: seq<string>)
    requires Sound(slots)
    ensures Sound(Refiled(slots, nodes))
    ensures forall node :: node in slots && node in nodes ==>
              node in Refiled(slots, nodes) && Refiled(slots, nodes)[node] == slots[node]
    ensures forall node :: node in Refiled(slots, nodes) ==> node in nodes
    ensures forall node :: node in nodes && node !in Refiled(slots, nodes) ==> |Refiled(slots, nodes)| == CAPACITY
  {
    hide Sound, FileAll;
    RetainedKeeps(slots, nodes);
    FileAllKeeps(Retained(slots, nodes), nodes);
  }

  /** Every wanted node gets a slot exactly when there are no more of them than ports. */
  lemma AllFiledIffTheyFit(slots: Assignments, nodes: seq<string>)
    requires Sound(slots)
    ensures Refiled(slots, nodes).Keys == (set node | node in nodes)
       <==> |set node | node in nodes| <= 57_634
  {
    RefiledKeeps(slots, nodes);
    hide Sound, Refiled;
    var after, wanted := Refiled(slots, nodes), set node | node in nodes;
    SoundFits(after);
    SubsetSize(after.Keys, wanted);
  }

  /** Re-filing the same nodes, in any order, changes nothing. */
  lemma SameNodesSameSlots(slots: Assignments, nodes: seq<string>, again: seq<string>)
    requires Sound(slots)
    requires forall node :: node in nodes <==> node in again
    ensures Refiled(Refiled(slots, nodes), again) == Refiled(slots, nodes)
  {
    var once := Refiled(slots, nodes);
    RefiledKeeps(slots, nodes);
    assert Retained(once, again) == once;
    hide Sound, Refiled;
    NothingLeftToFile(once, again);
  }

  lemma {:induction false} NothingLeftToFile(slots: Assignments, nodes: seq<string>)
    requires Sound(slots)
    requires forall node :: node in nodes && node !in slots ==> |slots| == CAPACITY
    ensures FileAll(slots, nodes) == slots
  {
    if nodes != [] {
      NothingLeftToFile(slots, nodes[..|nodes| - 1]);
      SoundFits(slots);
    }
  }

  // -------------------------------------------------------------------------------------------- slots stay dense

  /** Every slot is within `peak` of the bottom, not counting a reserved one. */
  ghost predicate Within(slots: Assignments, peak: nat)
  {
    forall node :: node in slots ==> slots[node] <= if slots[node] < 1190 then peak else peak + 1
  }

  lemma FileWithin(slots: Assignments, node: string, peak: nat)
    requires Sound(slots) && Within(slots, peak) && |File(slots, node)| <= peak
    ensures Within(File(slots, node), peak)
  {
    if node !in slots && LeastFree(1, slots.Values).Some? {
      var slot := LeastFree(1, slots.Values).value;
      ValuesCount(slots);
      SlotsSize(slot - 1);
      SubsetSize(Slots(slot - 1), slots.Values);
      assert |slots[node := slot]| == |slots| + 1;
    }
  }

  lemma {:induction false} FileAllWithin(slots: Assignments, nodes: seq<string>, peak: nat)
    requires Sound(slots) && Within(slots, peak) && |FileAll(slots, nodes)| <= peak
    ensures Within(FileAll(slots, nodes), peak)
  {
    if nodes != [] {
      var n := |nodes| - 1;
      var before := FileAll(slots, nodes[..n]);
      FileAllKeeps(slots, nodes[..n]);
      FileKeepsSound(before, nodes[n]);
      SubsetSize(before.Keys, File(before, nodes[n]).Keys);
      hide Sound, File, Within;
      FileAllWithin(slots, nodes[..n], peak);
      FileWithin(before, nodes[n], peak);
    }
  }

  /** A re-file hands out no slot above the most nodes that ever held one at a time, reserved slots not counted. */
  lemma RefiledWithin(slots: Assignments, nodes: seq<string>, peak: nat)
    requires Sound(slots) && Within(slots, peak) && |Refiled(slots, nodes)| <= peak
    ensures Within(Refiled(slots, nodes), peak)
  {
    RetainedKeeps(slots, nodes);
    assert Within(Retained(slots, nodes), peak);
    hide Sound, Within;
    FileAllWithin(Retained(slots, nodes), nodes, peak);
  }

  // ----------------------------------------------------------------------------------------------------- the manager

  method FindFree(taken: set<nat>) returns (found: Option<nat>)
    ensures found == LeastFree(1, taken)
  {
    for slot := 1 to MAX_OUTBOUNDS + 1
      invariant Slots(slot - 1) <= taken
      invariant LeastFree(1, taken) == LeastFree(slot, taken)
    {
      if slot !in taken && OutboundPort(slot) !in RESERVED_PORTS {
        return Some(slot);
      }
    }
    return None;
  }

  /** The wanted nodes with the leased ones behind them, each once. */
  function WithLeased(nodes: seq<string>, leased: seq<string>): (wanted: seq<string>)
    ensures forall node :: node in wanted <==> node in nodes || node in leased
  {
    if leased == [] then nodes
    else
      var n := |leased| - 1;
      var before := WithLeased(nodes, leased[..n]);
      if leased[n] in before then before else before + [leased[n]]
  }

  method AddLeased(nodes: seq<string>, leased: seq<string>) returns (wanted: seq<string>)
    ensures wanted == WithLeased(nodes, leased)
  {
    wanted := nodes;
    for i := 0 to |leased|
      invariant wanted == WithLeased(nodes, leased[..i])
    {
      assert leased[..i + 1][..i] == leased[..i];
      if leased[i] !in wanted {
        wanted := wanted + [leased[i]];
      }
    }
    assert leased[..|leased|] == leased;
  }

  /** Once no slot is free, no further node gets one. */
  lemma {:induction false} FullFilesNoMore(slots: Assignments, nodes: seq<string>, i: nat)
    requires i <= |nodes| && LeastFree(1, FileAll(slots, nodes[..i]).Values).None?
    ensures FileAll(slots, nodes) == FileAll(slots, nodes[..i])
    decreases |nodes|
  {
    if i == |nodes| {
      assert nodes[..i] == nodes;
    } else {
      assert nodes[..|nodes| - 1][..i] == nodes[..i];
      FullFilesNoMore(slots, nodes[..|nodes| - 1], i);
    }
  }

  /** Files the nodes that have no slot yet, carrying the taken slots along, until none is free. */
  method FileNodes(kept: Assignments, nodes: seq<string>) returns (slots: Assignments)
    ensures slots == FileAll(kept, nodes)
  {
    slots := kept;
    var taken := slots.Values;
    for i := 0 to |nodes|
      invariant slots == FileAll(kept, nodes[..i]) && taken == slots.Values
    {
      hide LeastFree, Slots;
      assert nodes[..i + 1][..i] == nodes[..i];
      if nodes[i] in slots {
        continue;
      }
      var slot := FindFree(taken);
      if slot.None? {
        FullFilesNoMore(kept, nodes, i);
        break;
      }
      taken := taken + {slot.value};
      AddedValue(slots, nodes[i], slot.value);
      slots := slots[nodes[i] := slot.value];
    }
    assert nodes[..|nodes|] == nodes;
  }

  lemma PeakGrows(slots: Assignments, peak: nat, higher: nat)
    requires peak <= higher
    ensures Within(slots, peak) ==> Within(slots, higher)
  {
  }

  lemma AddedValue(slots: Assignments, node: string, slot: nat)
    requires node !in slots
    ensures slots[node := slot].Values == slots.Values + {slot}
  {
    var after := slots[node := slot];
    assert after[node] == slot;
    forall value | value in slots.Values
      ensures value in after.Values
    {
      var n :| n in slots && slots[n] == value;
      assert after[n] == value;
    }
  }

  /** What the proxy runs: for each slot it has a group for, what the group goes out of. */
  type Groups = map<nat, string>

  /** The node is what its slot goes out of. */
  predicate RunsIn(running: Groups, node: string, slot: nat)
  {
    slot in running && running[slot] == node
  }

  /** Every assigned slot goes out of its node. */
  ghost predicate Agrees(running: Groups, slots: Assignments)
  {
    forall node :: node in slots ==> RunsIn(running, node, slots[node])
  }

  /** Asks the proxy to point each slot at its node and counts the answers. It takes none that it has no group for, and
      it may take one whose answer is lost. */
  method PointSlots(slots: Assignments, loaded: Groups, takes: string -> Outcome) returns (after: Groups, applied: nat)
    requires Sound(slots)
    ensures after.Keys == loaded.Keys
    ensures forall node :: node in slots && slots[node] in loaded && takes(node).Landed() ==>
              RunsIn(after, node, slots[node])
    ensures forall slot :: slot in loaded && LeftAsLoaded(slots, takes, slot) ==> after[slot] == loaded[slot]
    ensures applied == |slots| <==> forall node :: node in slots ==> takes(node).Answered() && slots[node] in loaded
  {
    hide Slots;
    after, applied := loaded, 0;
    var todo := slots.Keys;
    while todo != {}
      invariant todo <= slots.Keys && applied + |todo| <= |slots| && after.Keys == loaded.Keys
      invariant forall node :: node in slots.Keys - todo && slots[node] in loaded && takes(node).Landed() ==>
                  RunsIn(after, node, slots[node])
      invariant forall slot :: slot in loaded && LeftAsLoaded(slots, takes, slot) ==> after[slot] == loaded[slot]
      invariant applied + |todo| == |slots| <==>
                  forall node :: node in slots.Keys - todo ==> takes(node).Answered() && slots[node] in loaded
      decreases |todo|
    {
      var node :| node in todo;
      todo := todo - {node};
      if takes(node).Landed() && slots[node] in loaded {
        after := after[slots[node] := node];
      }
      if takes(node).Answered() && slots[node] in loaded {
        applied := applied + 1;
      }
    }
  }

  /** The proxy takes no node for the slot. */
  ghost predicate LeftAsLoaded(slots: Assignments, takes: string -> Outcome, slot: nat)
  {
    forall node :: node in slots && takes(node).Landed() ==> slots[node] != slot
  }

  const LANE_ATTEMPTS: nat := 12

  /** One attempt gets through: the reload is answered, and the proxy shows the lane groups. */
  predicate GetsThrough(reloads: nat -> Outcome, seen: nat -> bool, attempt: nat)
  {
    reloads(attempt).Answered() && seen(attempt)
  }

  /** The groups after some attempts: those of the last reload that the proxy carried out. */
  function Reloaded(running: Groups, configured: set<nat>, reloads: nat -> Outcome, loads: nat -> nat -> string,
                    attempts: nat): Groups
  {
    if attempts == 0 then running
    else if reloads(attempts - 1).Landed() then map slot | slot in configured :: loads(attempts - 1)(slot)
    else Reloaded(running, configured, reloads, loads, attempts - 1)
  }

  /** Either no reload was carried out, or the last that was brought every slot back to its node. */
  predicate ComesBack(slots: Assignments, configured: set<nat>, reloads: nat -> Outcome, loads: nat -> nat -> string,
                      attempts: nat)
  {
    if attempts == 0 then true
    else if reloads(attempts - 1).Landed() then
      forall node :: node in slots ==> slots[node] in configured && loads(attempts - 1)(slots[node]) == node
    else ComesBack(slots, configured, reloads, loads, attempts - 1)
  }

  lemma {:induction false} AgreesAgain(running: Groups, slots: Assignments, configured: set<nat>,
                                       reloads: nat -> Outcome, loads: nat -> nat -> string, attempts: nat)
    ensures Agrees(running, slots) ==>
              (Agrees(Reloaded(running, configured, reloads, loads, attempts), slots)
               <==> ComesBack(slots, configured, reloads, loads, attempts))
  {
    if attempts > 0 {
      AgreesAgain(running, slots, configured, reloads, loads, attempts - 1);
    }
  }

  /** In groups that all belong to a slot in use, a node that had no slot runs nowhere. */
  lemma NewNodesRunNowhere(running: Groups, slots: Assignments, after: Assignments)
    ensures Agrees(running, slots) && running.Keys <= slots.Values ==>
              forall node :: node in after && node !in slots ==> !RunsIn(running, node, after[node])
  {
    forall node | Agrees(running, slots) && running.Keys <= slots.Values && node in after && node !in slots
      ensures !RunsIn(running, node, after[node])
    {
      if after[node] in running {
        var other :| other in slots && slots[other] == after[node];
        assert RunsIn(running, other, slots[other]);
      }
    }
  }

  /** One thing asked of the manager, and what becomes of the writes and calls it makes. */
  datatype Operation =
    | SetNodes(nodes: seq<string>, saveOk: bool, configOk: bool)
    | Lease(nodes: seq<string>, held: seq<string>, saveOk: bool, configOk: bool)
    | Release(held: seq<string>, saveOk: bool, configOk: bool)
    | Apply(reloads: nat -> Outcome, seen: nat -> bool, loads: nat -> nat -> string, takes: string -> Outcome)
    | Reboot
  {
    /** Whoever asks still wants the node, or does not say. */
    predicate Wants(node: string)
    {
      match this
      case SetNodes(nodes, _, _) => node in nodes
      case Lease(nodes, held, _, _) => node in nodes || node in held
      case Release(held, _, _) => node in held
      case Apply(_, _, _, _) => true
      case Reboot => false
    }
  }

  function Greatest(start: nat, sizes: seq<nat>): nat
  {
    if sizes == [] then start else Max(Greatest(start, sizes[..|sizes| - 1]), sizes[|sizes| - 1])
  }

  class OutboundManager {
    var assignments: Assignments
    var leased: seq<string>
    /** The slot file. */
    var saved: Assignments
    /** The slots that the configuration file has a group and a listener for. */
    var configured: set<nat>
    /** The groups the proxy runs, and what each goes out of. */
    var running: Groups
    var slotsReady: bool
    /** The most nodes that have had a slot at one time. */
    ghost var peak: nat

    ghost predicate Valid()
      reads this
    {
      && Sound(assignments) && Within(assignments, peak) && |assignments| <= peak
      && Sound(saved) && Within(saved, peak) && |saved| <= peak
    }

    /** Ready is said only when every assigned slot goes out of its node. */
    ghost predicate Truthful()
      reads this
    {
      slotsReady ==> Agrees(running, assignments)
    }

    constructor ()
      ensures Valid() && Truthful() && assignments == map[] && leased == [] && peak == 0
      ensures running == map[] && configured == {}
    {
      assignments, leased, saved, running, slotsReady, peak := map[], [], map[], map[], false, 0;
      configured := {};
    }

    method Refile(nodes: seq<string>) returns (changed: bool)
      requires Valid()
      modifies this`assignments, this`peak
      ensures Valid() && peak == Max(old(peak), |assignments|)
      ensures assignments == Refiled(old(assignments), nodes)
      ensures changed <==> assignments != old(assignments)
    {
      var before := assignments;
      assignments := FileNodes(Retained(before, nodes), nodes);
      peak := Max(peak, |assignments|);
      RefiledKeeps(before, nodes);
      PeakGrows(before, old(peak), peak);
      PeakGrows(saved, old(peak), peak);
      hide Sound, Within, Retained, FileAll;
      RefiledWithin(before, nodes, peak);
      return assignments != before;
    }

    /** Grows or shrinks the slots to the wanted nodes and the leased ones. A node wanted or leased keeps its slot;
        slots that changed are saved and are not ready until the proxy has them. */
    method SetOutboundNodes(nodes: seq<string>, saveOk: bool, configOk: bool) returns (result: Result<bool, ()>)
      requires Valid()
      modifies this`assignments, this`saved, this`configured, this`slotsReady, this`peak
      ensures Valid() && peak == Max(old(peak), |assignments|)
      ensures assignments == Refiled(old(assignments), WithLeased(nodes, leased))
      ensures forall node :: node in old(assignments) && (node in nodes || node in leased) ==>
                node in assignments && assignments[node] == old(assignments)[node]
      ensures assignments == old(assignments) ==>
                && result == Success(false) && saved == old(saved) && configured == old(configured)
                && slotsReady == old(slotsReady)
      ensures assignments != old(assignments) && saveOk ==>
                && saved == assignments && !slotsReady
                && configured == (if configOk then assignments.Values else old(configured))
                && result == if configOk then Success(true) else Failure(())
      ensures assignments != old(assignments) && !saveOk ==>
                && result == Failure(()) && saved == old(saved) && configured == old(configured)
                && slotsReady == old(slotsReady)
      ensures old(Truthful()) && (saveOk || assignments == old(assignments)) ==> Truthful()
      ensures old(slotsReady && Truthful()) && !saveOk ==>
                (Truthful() <==> forall node :: node in assignments && node !in old(assignments) ==>
                                   RunsIn(running, node, assignments[node]))
      ensures old(slotsReady && Truthful() && running.Keys <= assignments.Values) && !saveOk ==>
                (Truthful() <==> assignments.Keys <= old(assignments).Keys)
    {
      ghost var before := assignments;
      var wanted := AddLeased(nodes, leased);
      RefiledKeeps(assignments, wanted);
      var changed := Refile(wanted);
      NewNodesRunNowhere(running, before, assignments);
      if changed {
        if !saveOk {
          return Failure(());
        }
        saved := assignments;
        slotsReady := false;
        if !configOk {
          return Failure(());
        }
        configured := assignments.Values;
      }
      return Success(changed);
    }

    /** Borrows slots for `nodes` on top of the ones `held`; replaces any lease before it. */
    method LeaseOutboundNodes(nodes: seq<string>, held: seq<string>, saveOk: bool, configOk: bool)
      returns (result: Result<bool, ()>)
      requires Valid()
      modifies this`assignments, this`saved, this`configured, this`slotsReady, this`peak, this`leased
      ensures Valid() && leased == nodes && peak == Max(old(peak), |assignments|)
      ensures assignments == Refiled(old(assignments), WithLeased(held, nodes))
      ensures forall node :: node in old(assignments) && (node in nodes || node in held) ==>
                node in assignments && assignments[node] == old(assignments)[node]
      ensures old(Truthful()) && (saveOk || assignments == old(assignments)) ==> Truthful()
    {
      leased := nodes;
      result := SetOutboundNodes(held, saveOk, configOk);
    }

    /** Gives the borrowed slots back: only nodes that are held keep one, and they keep the one they had. */
    method ReleaseOutboundNodes(held: seq<string>, saveOk: bool, configOk: bool) returns (result: Result<bool, ()>)
      requires Valid()
      modifies this`assignments, this`saved, this`configured, this`slotsReady, this`peak, this`leased
      ensures Valid() && leased == [] && peak == Max(old(peak), |assignments|)
      ensures assignments == Refiled(old(assignments), held)
      ensures forall node :: node in assignments ==> node in held
      ensures forall node :: node in old(assignments) && node in held ==>
                node in assignments && assignments[node] == old(assignments)[node]
      ensures old(Truthful()) && (saveOk || assignments == old(assignments)) ==> Truthful()
    {
      leased := [];
      RefiledKeeps(assignments, held);
      result := SetOutboundNodes(held, saveOk, configOk);
    }

    /** Has the proxy load the configuration file, up to twelve times, until it answers and shows the lane groups;
        groups come up as `loads` says (a choice it remembers, or the shared group). Then points every slot at its node:
        ready exactly when it took all of them. When no attempt gets through readiness stays as it was, whatever the
        reloads it did carry out have made of the groups. */
    method ApplyRuntimeConfig(reloads: nat -> Outcome, seen: nat -> bool, loads: nat -> nat -> string,
                              takes: string -> Outcome)
      returns (through: Option<nat>)
      requires Valid()
      modifies this`running, this`slotsReady
      ensures Valid()
      ensures through.None? <==> forall i :: 0 <= i < 12 ==> !(reloads(i) == Done && seen(i))
      ensures through.None? ==>
                && running == Reloaded(old(running), configured, reloads, loads, 12)
                && slotsReady == old(slotsReady)
      ensures through.None? && old(slotsReady && Truthful()) ==>
                (Truthful() <==> ComesBack(assignments, configured, reloads, loads, 12))
      ensures through.Some? ==>
                && through.value < 12 && reloads(through.value) == Done && seen(through.value)
                && (forall i :: 0 <= i < through.value ==> !(reloads(i) == Done && seen(i)))
                && Truthful() && running.Keys == configured
                && (slotsReady <==> forall node :: node in assignments ==>
                      takes(node).Answered() && assignments[node] in configured)
                && (forall node :: node in assignments && takes(node).Landed() && assignments[node] in configured ==>
                      RunsIn(running, node, assignments[node]))
                && (forall slot :: slot in configured && LeftAsLoaded(assignments, takes, slot) ==>
                      running[slot] == loads(through.value)(slot))
    {
      hide Sound, Within, LeftAsLoaded, RunsIn, Reloaded, ComesBack, Agrees;
      AgreesAgain(running, assignments, configured, reloads, loads, LANE_ATTEMPTS);
      through := ReloadUntilSeen(reloads, seen, loads);
      if through.Some? {
        ApplyOutboundSelections(takes);
      }
    }

    method ReloadUntilSeen(reloads: nat -> Outcome, seen: nat -> bool, loads: nat -> nat -> string)
      returns (through: Option<nat>)
      modifies this`running
      ensures through.None? <==> forall i :: 0 <= i < 12 ==> !(reloads(i) == Done && seen(i))
      ensures through.None? ==> running == Reloaded(old(running), configured, reloads, loads, 12)
      ensures through.Some? ==>
                && through.value < 12 && reloads(through.value) == Done && seen(through.value)
                && (forall i :: 0 <= i < through.value ==> !(reloads(i) == Done && seen(i)))
                && running == map slot | slot in configured :: loads(through.value)(slot)
    {
      for attempt := 0 to LANE_ATTEMPTS
        invariant running == Reloaded(old(running), configured, reloads, loads, attempt)
        invariant forall i :: 0 <= i < attempt ==> !(reloads(i) == Done && seen(i))
      {
        if reloads(attempt).Landed() {
          running := map slot | slot in configured :: loads(attempt)(slot);
        }
        if GetsThrough(reloads, seen, attempt) {
          return Some(attempt);
        }
      }
      return None;
    }

    /** Points every slot at its node: ready exactly when the proxy took all of them. */
    method ApplyOutboundSelections(takes: string -> Outcome)
      requires Valid()
      modifies this`running, this`slotsReady
      ensures Valid() && Truthful() && running.Keys == old(running).Keys
      ensures slotsReady <==> forall node :: node in assignments ==>
                takes(node).Answered() && assignments[node] in running
      ensures forall node :: node in assignments && takes(node).Landed() && assignments[node] in running ==>
                RunsIn(running, node, assignments[node])
      ensures forall slot :: slot in running && LeftAsLoaded(assignments, takes, slot) ==>
                running[slot] == old(running)[slot]
    {
      hide Sound, Within, LeftAsLoaded, RunsIn;
      var applied;
      running, applied := PointSlots(assignments, running, takes);
      slotsReady := applied == |assignments|;
    }

    /** Where a session bound to `node` dials: its own port or, when that is not known to be listening, none. */
    function PortForNode(node: string): (port: Option<nat>)
      requires Valid()
      reads this
      ensures port.Some? ==>
                && slotsReady && node in assignments && OUTBOUND_PORT_BASE < port.value <= 65535
                && port.value !in RESERVED_PORTS
                && forall other :: other in assignments && OutboundPort(assignments[other]) == port.value ==>
                     other == node
      ensures slotsReady && node in assignments <==> port.Some?
      ensures port.Some? ==> port.value == 7900 + assignments[node] && port.value != 9090
    {
      if slotsReady && node in assignments then
        assert assignments[node] in assignments.Values;
        Some(OutboundPort(assignments[node]))
      else None
    }

    /** A new process reads the file back and writes the configuration anew; a lease does not survive. */
    method Restart()
      requires Valid()
      modifies this`assignments, this`leased, this`configured, this`slotsReady
      ensures Valid() && Truthful()
      ensures assignments == saved && leased == [] && !slotsReady && configured == assignments.Values
      ensures old(saved == assignments) ==> assignments == old(assignments)
    {
      assignments, leased, slotsReady := saved, [], false;
      configured := assignments.Values;
    }
  }

  /** Over any sequence of operations, whatever becomes of their writes and calls, slots stay sound; a node that every
      one of them wants never changes slot; and no slot exceeds the most nodes that had one at any time, reserved slots
      not counted. `sizes` is how many nodes had a slot after each. */
  method Operate(manager: OutboundManager, operations: seq<Operation>) returns (sizes: seq<nat>)
    requires manager.Valid()
    modifies manager
    ensures manager.Valid() && |sizes| == |operations|
    ensures sizes != [] ==> sizes[|sizes| - 1] == |manager.assignments|
    ensures manager.peak == Greatest(old(manager.peak), sizes)
    ensures forall node :: node in manager.assignments ==>
              var slot := manager.assignments[node];
              slot <= Greatest(old(manager.peak), sizes) + if slot < 1190 then 0 else 1
    ensures forall node :: (&& node in old(manager.assignments)
                            && (forall i :: 0 <= i < |operations| ==> operations[i].Wants(node))) ==>
              node in manager.assignments && manager.assignments[node] == old(manager.assignments)[node]
  {
    sizes := [];
    for i := 0 to |operations|
      invariant manager.Valid() && |sizes| == i
      invariant sizes != [] ==> sizes[|sizes| - 1] == |manager.assignments|
      invariant manager.peak == Greatest(old(manager.peak), sizes)
      invariant forall node :: (&& node in old(manager.assignments)
                                && (forall j :: 0 <= j < i ==> operations[j].Wants(node))) ==>
                  node in manager.assignments && manager.assignments[node] == old(manager.assignments)[node]
    {
      hide Sound, Within, Refiled, WithLeased, Agrees;
      ghost var before := manager.peak;
      Perform(manager, operations[i]);
      assert (sizes + [|manager.assignments|])[..|sizes|] == sizes;
      sizes := sizes + [|manager.assignments|];
    }
  }

  method Perform(manager: OutboundManager, operation: Operation)
    requires manager.Valid()
    modifies manager
    ensures manager.Valid() && manager.peak == Max(old(manager.peak), |manager.assignments|)
    ensures forall node :: node in old(manager.assignments) && operation.Wants(node) ==>
              node in manager.assignments && manager.assignments[node] == old(manager.assignments)[node]
  {
    hide Sound, Within, Refiled, WithLeased, Agrees;
    match operation {
      case SetNodes(nodes, saveOk, configOk) =>
        var result := manager.SetOutboundNodes(nodes, saveOk, configOk);
      case Lease(nodes, held, saveOk, configOk) =>
        var result := manager.LeaseOutboundNodes(nodes, held, saveOk, configOk);
      case Release(held, saveOk, configOk) =>
        var result := manager.ReleaseOutboundNodes(held, saveOk, configOk);
      case Apply(reloads, seen, loads, takes) =>
        var through := manager.ApplyRuntimeConfig(reloads, seen, loads, takes);
      case Reboot =>
        manager.Restart();
    }
  }

  lemma OneNodeOneSlot(node: string)
    ensures Refiled(map[], [node]).Keys == {node} && Refiled(map[], [node]) != map[]
  {
    hide Refiled, Slots;
    RefiledKeeps(map[], [node]);
    SubsetSize(Refiled(map[], [node]).Keys, {node});
    assert node in [node];
  }

  /** A manager whose one node is in use. */
  method ReadyFor(node: string, shared: string) returns (manager: OutboundManager)
    ensures fresh(manager) && manager.Valid() && manager.slotsReady && manager.Truthful()
    ensures manager.assignments.Keys == {node} && manager.configured == manager.assignments.Values
    ensures manager.running.Keys == manager.configured && manager.leased == []
  {
    hide Sound, Refiled, Within, Slots, Agrees;
    manager := new OutboundManager();
    var result := manager.SetOutboundNodes([node], true, true);
    OneNodeOneSlot(node);
    var done, yes := (attempt: nat) => Done, (attempt: nat) => true;
    var through := manager.ApplyRuntimeConfig(done, yes, _ => _ => shared, _ => Done);
    assert GetsThrough(done, yes, 0);
  }

  /** When the slot file cannot be written, the new slots are in force without the proxy having heard of them, and they
      still read as ready: here the slot goes out of the node that had it before. */
  method UnsavedSlotsLookReady(first: string, second: string) returns (manager: OutboundManager)
    requires first != second
    ensures fresh(manager) && manager.Valid() && manager.slotsReady && !manager.Truthful()
    ensures second in manager.assignments && manager.PortForNode(second).Some?
  {
    hide Sound, Refiled, Within, Slots;
    manager := ReadyFor(first, "");
    var before := manager.assignments;
    var result := manager.SetOutboundNodes([second], false, true);
    RefiledKeeps(before, [second]);
    SubsetSize(manager.assignments.Keys, {second});
    assert second in [second] && second in manager.assignments;
  }

  /** Applying a configuration that has not changed, when the proxy reloads but does not show the lane groups in time:
      the node's slot is back on the shared group, and the node still gets its port. */
  method ReloadUnseenLooksReady(node: string, shared: string) returns (manager: OutboundManager)
    requires node != shared
    ensures fresh(manager) && manager.Valid() && manager.slotsReady && !manager.Truthful()
    ensures node in manager.assignments && manager.PortForNode(node).Some?
  {
    hide Sound, Refiled, Within, Slots, Agrees, Reloaded;
    manager := ReadyFor(node, shared);
    assert node in manager.assignments;
    var done, no, groups := (attempt: nat) => Done, (attempt: nat) => false, (attempt: nat) => (slot: nat) => shared;
    var through := manager.ApplyRuntimeConfig(done, no, groups, _ => Done);
    assert !ComesBack(manager.assignments, manager.configured, done, groups, LANE_ATTEMPTS);
  }
}
