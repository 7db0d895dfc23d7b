/**
 * The reconciliation pass of linkeddevices as functions on store values:
 * the status reset, the visit of one enumerated parent, the builder of a
 * linked object, the generation phase and the whole pass. The methods of
 * `Adapter.Linkeddevices` are proved to compute exactly these.
 *
 * The second half gives store-free reference definitions of what the
 * generation phase writes (`WrittenObjects`, `WrittenStates`) and logs
 * (`ErrorLog`); `ReconcileProofs` proves the phase equal to overlaying them.
 */
module Reconcile {
  import opened StoreModel
  import opened LinkIds

  /** The description stamped on every linked object. */
  const Provenance := "Created by linkeddevices"

  // ----- Status reset -----

  /** An own object as the reset writes it back: its own custom block says `linked: false`. */
  function ResetObject(ns: string, o: Obj): (r: Obj)
    requires ns in o.common.custom
    ensures ns in r.common.custom && r.common.custom[ns].linked == Some(false)
    ensures r.common.custom[ns].(linked := o.common.custom[ns].linked) == o.common.custom[ns]
    ensures r.(common := r.common.(custom := o.common.custom)) == o
    ensures forall n :: n != ns ==> SameAt(r.common.custom, o.common.custom, n)
  {
    var block := o.common.custom[ns];
    o.(common := o.common.(custom := o.common.custom[ns := block.(linked := Some(false))]))
  }

  /**
   * One iteration of the reset loop on the enumerated own id `id`, whose object
   * is read from the enumeration `snap`: written back reset when it has a
   * custom block for the namespace (the source's test `linked || !linked`
   * always holds), left alone otherwise.
   */
  function ResetStep(ns: string, snap: map<string, Obj>, id: string, objects: map<string, Obj>): (r: map<string, Obj>)
    requires id in snap
    ensures forall k | k != id :: SameAt(r, objects, k)
    ensures ns in snap[id].common.custom ==>
      id in r && r[id] == ResetObject(ns, snap[id])
    ensures ns !in snap[id].common.custom ==> r == objects
  {
    if ns in snap[id].common.custom then objects[id := ResetObject(ns, snap[id])] else objects
  }

  /** The reset loop over the enumerated ids `ids`, in order, applied to `objects`. */
  function Reset(ns: string, snap: map<string, Obj>, ids: seq<string>, objects: map<string, Obj>): (r: map<string, Obj>)
    requires forall k | k in ids :: k in snap
    ensures objects.Keys <= r.Keys
    decreases |ids|
  {
    if ids == [] then objects
    else Reset(ns, snap, ids[1..], ResetStep(ns, snap, ids[0], objects))
  }

  // ----- Generation: the tests applied to one enumerated object -----

  /**
   * The generation phase looks at `p` (stored under `id`): the id does not
   * contain the namespace, and `p` has an enabled custom block for it.
   */
  predicate IsCandidate(ns: string, id: string, p: Obj)
  {
    !Contains(id, ns) && ns in p.common.custom && p.common.custom[ns].enabled
  }

  /** The configured id is missing or empty. */
  predicate IdMissing(c: Custom)
  {
    c.id == None || c.id == Some("")
  }

  /** The id of the linked object a parent with a configured id derives. */
  function LinkTarget(ns: string, p: Obj): string
    requires ns in p.common.custom && p.common.custom[ns].id.Some?
  {
    LinkedObjectId(ns, p.common.custom[ns].id.value)
  }

  /** A candidate whose configuration passes both checks: it goes to the builder. */
  predicate IsLinkable(ns: string, id: string, p: Obj)
  {
    && IsCandidate(ns, id, p)
    && !IdMissing(p.common.custom[ns])
    && !HasIllegalChar(LinkTarget(ns, p))
  }

  /** The configuration error a candidate produces, if any. */
  function ConfigErrorOf(ns: string, id: string, p: Obj): (r: Option<ConfigError>)
    ensures r.Some? ==> r.value.parentId == id
    ensures r.Some? <==> IsCandidate(ns, id, p) && !IsLinkable(ns, id, p)
  {
    if !IsCandidate(ns, id, p) then None
    else if IdMissing(p.common.custom[ns]) then Some(MissingLinkId(id))
    else if HasIllegalChar(LinkTarget(ns, p)) then Some(InvalidLinkId(id, LinkTarget(ns, p)))
    else None
  }

  // ----- The builder -----

  /**
   * The display name of the linked object: a non-empty custom name, else the
   * parent's name when the custom name is empty. `None` when the custom name is
   * absent: the source then reads `.length` of undefined, which throws.
   */
  function ResolveName(c: Custom, parentName: string): (r: Option<string>)
    ensures r == None <==> c.name == None
    ensures c.name == Some("") ==> r == Some(parentName)
    ensures c.name.Some? && c.name.value != "" ==> r == c.name
  {
    match c.name
    case None => None
    case Some(n) => if n != "" then Some(n) else Some(parentName)
  }

  /** The parent would make the pass abort: it goes to the builder without a custom name. */
  predicate Aborts(ns: string, id: string, p: Obj)
  {
    IsLinkable(ns, id, p) && p.common.custom[ns].name == None
  }

  /** The custom block the builder gives a linked object, replacing the parent's. */
  function LinkStatus(parentId: string): Custom
  {
    Custom(false, None, None, Some(parentId), Some(true), map[])
  }

  /**
   * The object the builder stores: the parent's type and common, with the
   * resolved name, the provenance description and the link status block;
   * nothing else of the parent (its native part in particular) is carried.
   */
  function BuildLinkedObject(ns: string, parentId: string, p: Obj, name: string): Obj
  {
    var common := p.common.(name := name, desc := Some(Provenance),
                            custom := p.common.custom[ns := LinkStatus(parentId)]);
    Obj(p.kind, common, map[])
  }

  /** The linked object built for a parent that has a custom name. */
  function LinkedObject(ns: string, parentId: string, p: Obj): Obj
    requires ns in p.common.custom && p.common.custom[ns].name.Some?
  {
    BuildLinkedObject(ns, parentId, p, ResolveName(p.common.custom[ns], p.common.name).value)
  }

  /** The state the builder writes: the parent's value, acknowledged. */
  function LinkedState(parentState: State): State
  {
    State(parentState.val, true)
  }

  /**
   * `createLinkedObject` on the parent `p` stored under `parentId`: resolve the
   * name (aborting when it is absent), upsert the linked object at the derived
   * id, then copy the parent's current state if it has one.
   */
  function Create(ns: string, parentId: string, p: Obj, s: Store): (r: Run)
    requires ns in p.common.custom && p.common.custom[ns].id.Some?
    ensures r.outcome.Aborted? <==> p.common.custom[ns].name == None
    ensures r.outcome.Aborted? ==> r == Run(s, Aborted(parentId))
    ensures r.store.errors == s.errors
    ensures forall k | k != LinkTarget(ns, p) :: SameAt(r.store.objects, s.objects, k) && SameAt(r.store.states, s.states, k)
    ensures r.outcome == Completed ==>
      && LinkTarget(ns, p) in r.store.objects
      && ns in r.store.objects[LinkTarget(ns, p)].common.custom
      && r.store.objects[LinkTarget(ns, p)].common.custom[ns] == LinkStatus(parentId)
    ensures r.outcome == Completed ==> (LinkTarget(ns, p) in r.store.states <==> parentId in s.states || LinkTarget(ns, p) in s.states)
  {
    match ResolveName(p.common.custom[ns], p.common.name)
    case None => Run(s, Aborted(parentId))
    case Some(name) =>
      var target := LinkTarget(ns, p);
      var objects := s.objects[target := BuildLinkedObject(ns, parentId, p, name)];
      var states := if parentId in s.states then s.states[target := LinkedState(s.states[parentId])] else s.states;
      Run(Store(objects, states, s.errors), Completed)
  }

  /** One iteration of the generation loop on the enumerated object `p` stored under `id`. */
  function Visit(ns: string, id: string, p: Obj, s: Store): (r: Run)
    ensures r.outcome.Aborted? <==> Aborts(ns, id, p)
    ensures r.outcome.Aborted? ==> r == Run(s, Aborted(id))
    ensures !IsLinkable(ns, id, p) ==> r.store.objects == s.objects && r.store.states == s.states
    ensures IsLinkable(ns, id, p) ==> r.store.errors == s.errors
  {
    if !IsCandidate(ns, id, p) then Run(s, Completed)
    else if IdMissing(p.common.custom[ns]) then Run(s.(errors := s.errors + [MissingLinkId(id)]), Completed)
    else if HasIllegalChar(LinkTarget(ns, p)) then
      Run(s.(errors := s.errors + [InvalidLinkId(id, LinkTarget(ns, p))]), Completed)
    else Create(ns, id, p, s)
  }

  /** The generation loop over the enumerated ids, stopping at the first abort. */
  function Generate(ns: string, snap: map<string, Obj>, ids: seq<string>, s: Store): Run
    requires forall k | k in ids :: k in snap
    decreases |ids|
  {
    if ids == [] then Run(s, Completed)
    else
      var r := Visit(ns, ids[0], snap[ids[0]], s);
      if r.outcome.Aborted? then r else Generate(ns, snap, ids[1..], r.store)
  }

  /**
   * `initialObjects`: the reset over the enumerated own ids, then generation
   * over the ids enumerated from the reset store.
   */
  function Pass(ns: string, s: Store, ownIds: seq<string>, allIds: seq<string>): Run
    requires forall k | k in ownIds :: k in s.objects
    requires forall k | k in allIds :: k in s.objects
  {
    var reset := Reset(ns, s.objects, ownIds, s.objects);
    Generate(ns, reset, allIds, s.(objects := reset))
  }

  // ----- Store-free reference definitions of what generation does -----

  /** No enumerated parent makes the pass abort. */
  predicate NoAborts(ns: string, snap: map<string, Obj>, ids: seq<string>)
    requires forall k | k in ids :: k in snap
  {
    forall j | 0 <= j < |ids| :: !Aborts(ns, ids[j], snap[ids[j]])
  }

  /** The linked object one visited parent writes, by target id (none unless it reaches the builder with a name). */
  function ObjectWrite(ns: string, id: string, p: Obj): map<string, Obj>
  {
    if IsLinkable(ns, id, p) && p.common.custom[ns].name.Some?
    then map[LinkTarget(ns, p) := LinkedObject(ns, id, p)] else map[]
  }

  /** The state one visited parent writes, from its state in `states`, by target id. */
  function StateWrite(ns: string, id: string, p: Obj, states: map<string, State>): map<string, State>
  {
    if IsLinkable(ns, id, p) && p.common.custom[ns].name.Some? && id in states
    then map[LinkTarget(ns, p) := LinkedState(states[id])] else map[]
  }

  /** The log entry one visited parent produces. */
  function ErrorEntry(ns: string, id: string, p: Obj): seq<ConfigError>
  {
    match ConfigErrorOf(ns, id, p)
    case Some(e) => [e]
    case None => []
  }

  /**
   * The linked objects generation writes, by target id, up to the first
   * aborting parent; a later parent overrides an earlier one with the same target.
   */
  function WrittenObjects(ns: string, snap: map<string, Obj>, ids: seq<string>): map<string, Obj>
    requires forall k | k in ids :: k in snap
    decreases |ids|
  {
    if ids == [] || Aborts(ns, ids[0], snap[ids[0]]) then map[]
    else ObjectWrite(ns, ids[0], snap[ids[0]]) + WrittenObjects(ns, snap, ids[1..])
  }

  /**
   * The states generation writes, by target id, from the parents' states in
   * `states`; a parent without a state writes none.
   */
  function WrittenStates(ns: string, snap: map<string, Obj>, states: map<string, State>, ids: seq<string>): map<string, State>
    requires forall k | k in ids :: k in snap
    decreases |ids|
  {
    if ids == [] || Aborts(ns, ids[0], snap[ids[0]]) then map[]
    else StateWrite(ns, ids[0], snap[ids[0]], states) + WrittenStates(ns, snap, states, ids[1..])
  }

  /** The configuration errors generation logs, in order, up to the first aborting parent. */
  function ErrorLog(ns: string, snap: map<string, Obj>, ids: seq<string>): seq<ConfigError>
    requires forall k | k in ids :: k in snap
    decreases |ids|
  {
    if ids == [] || Aborts(ns, ids[0], snap[ids[0]]) then []
    else ErrorEntry(ns, ids[0], snap[ids[0]]) + ErrorLog(ns, snap, ids[1..])
  }

  /** Parent `ids[j]` derives `k`. */
  predicate DerivesAt(ns: string, snap: map<string, Obj>, ids: seq<string>, k: string, j: int)
  {
    && 0 <= j < |ids|
    && ids[j] in snap
    && IsLinkable(ns, ids[j], snap[ids[j]])
    && LinkTarget(ns, snap[ids[j]]) == k
  }

  /** Some enumerated parent that goes to the builder derives `k`. */
  ghost predicate Derives(ns: string, snap: map<string, Obj>, ids: seq<string>, k: string)
  {
    exists j :: DerivesAt(ns, snap, ids, k, j)
  }

  /**
   * Parent `ids[j]` derives `k`, reaches the builder with a custom name, and
   * no parent before it aborted the pass: it is visited and writes `k`.
   */
  predicate WritesAt(ns: string, snap: map<string, Obj>, ids: seq<string>, k: string, j: int)
    requires forall k | k in ids :: k in snap
  {
    && DerivesAt(ns, snap, ids, k, j)
    && !Aborts(ns, ids[j], snap[ids[j]])
    && forall i | 0 <= i < j :: !Aborts(ns, ids[i], snap[ids[i]])
  }

  /** `ids[j]` derives `k` and no later enumerated parent does. */
  predicate IsLastWriter(ns: string, snap: map<string, Obj>, ids: seq<string>, k: string, j: int)
  {
    DerivesAt(ns, snap, ids, k, j) && forall j' | j < j' < |ids| :: !DerivesAt(ns, snap, ids, k, j')
  }

  /** Parent `ids[j]` derives `k` and has a state in `st`, so it writes a state at `k`. */
  predicate StateDerivesAt(ns: string, snap: map<string, Obj>, st: map<string, State>, ids: seq<string>, k: string, j: int)
  {
    DerivesAt(ns, snap, ids, k, j) && ids[j] in st
  }

  /** `ids[j]` derives `k` and has a state, and no later enumerated parent that derives `k` has one. */
  predicate IsLastStateWriter(ns: string, snap: map<string, Obj>, st: map<string, State>, ids: seq<string>, k: string, j: int)
  {
    StateDerivesAt(ns, snap, st, ids, k, j) && forall j' | j < j' < |ids| :: !StateDerivesAt(ns, snap, st, ids, k, j')
  }

  /** The ids of `ids` that do not contain the namespace, in order: the only ones generation may act on. */
  function Foreign(ns: string, ids: seq<string>): (r: seq<string>)
    ensures forall k | k in r :: k in ids
    decreases |ids|
  {
    if ids == [] then []
    else (if Contains(ids[0], ns) then [] else [ids[0]]) + Foreign(ns, ids[1..])
  }

  /** The number of logged errors that name `parentId`. */
  function CountFor(errors: seq<ConfigError>, parentId: string): nat
    decreases |errors|
  {
    if errors == [] then 0
    else (if errors[0].parentId == parentId then 1 else 0) + CountFor(errors[1..], parentId)
  }

  /** No element occurs twice in `s`, as with the keys a `for ... in` loop enumerates. */
  predicate Distinct<T(==)>(s: seq<T>)
  {
    forall i, j | 0 <= i < j < |s| :: s[i] != s[j]
  }

  /** The store enumerates exactly the own ids of `objects` for the reset. */
  ghost predicate EnumeratesOwn(ns: string, objects: map<string, Obj>, ownIds: seq<string>)
  {
    forall k :: k in ownIds <==> k in objects && IsOwnId(ns, k)
  }
}
