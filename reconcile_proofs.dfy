/**
 * What the reconciliation pass promises, proved about the functions of
 * `Reconcile`: the reset of every own link, the skip and validation rules,
 * the shape of a linked object, last-write-wins, the frame of the pass, and
 * that running the pass again on its own result changes nothing.
 */
module ReconcileProofs {
  import opened StoreModel
  import opened LinkIds
  import opened Reconcile

  // ----- Status reset -----

  /**
   * After the reset loop every enumerated object with a custom block for the
   * namespace is the reset copy of its enumerated object; every other key is
   * as before (not written).
   */
  lemma {:induction false} ResetEffect(ns: string, snap: map<string, Obj>, ids: seq<string>, objects: map<string, Obj>)
    requires forall k | k in ids :: k in snap
    ensures var r := Reset(ns, snap, ids, objects);
      forall k :: if k in ids && ns in snap[k].common.custom
                  then k in r && r[k] == ResetObject(ns, snap[k])
                  else SameAt(r, objects, k)
    decreases |ids|
  {
    if ids != [] {
      var next := ResetStep(ns, snap, ids[0], objects);
      ResetEffect(ns, snap, ids[1..], next);
      assert forall k :: k in ids <==> k == ids[0] || k in ids[1..];
    }
  }

  /** Resetting an already reset object gives it back unchanged. */
  lemma ResetObjectIdempotent(ns: string, o: Obj)
    requires ns in o.common.custom
    ensures ResetObject(ns, ResetObject(ns, o)) == ResetObject(ns, o)
  {
  }

  // ----- One visit -----

  /**
   * The skip rule: a visited object whose id contains the namespace, that has
   * no custom block for it, or whose block is not enabled, causes no write and
   * no log entry.
   */
  lemma VisitSkips(ns: string, id: string, p: Obj, s: Store)
    requires Contains(id, ns) || ns !in p.common.custom || !p.common.custom[ns].enabled
    ensures Visit(ns, id, p, s) == Run(s, Completed)
  {
  }

  /**
   * The validation rules: an enabled candidate with a missing or empty id, or
   * whose derived id holds a forbidden character, gets exactly one logged error
   * of that kind and no object or state write.
   */
  lemma VisitRejects(ns: string, id: string, p: Obj, s: Store)
    requires IsCandidate(ns, id, p) && !IsLinkable(ns, id, p)
    ensures var r := Visit(ns, id, p, s);
      && r.outcome == Completed
      && r.store.objects == s.objects && r.store.states == s.states
      && r.store.errors == s.errors + [ConfigErrorOf(ns, id, p).value]
      && (IdMissing(p.common.custom[ns]) ==> ConfigErrorOf(ns, id, p) == Some(MissingLinkId(id)))
      && (!IdMissing(p.common.custom[ns]) ==>
            ConfigErrorOf(ns, id, p) == Some(InvalidLinkId(id, LinkTarget(ns, p))))
  {
  }

  /**
   * The shape of a built linked object: the parent's type, the parent's common
   * (its other fields and the custom blocks of every other namespace) with the
   * given name, the provenance description, and `{parentId, linked: true}` as
   * its own block; no native part.
   */
  lemma LinkedObjectShape(ns: string, parentId: string, p: Obj, name: string)
    requires ns in p.common.custom
    ensures var o := BuildLinkedObject(ns, parentId, p, name);
      && o.kind == p.kind
      && o.common.name == name
      && o.common.desc == Some(Provenance)
      && o.common.other == p.common.other
      && o.common.custom.Keys == p.common.custom.Keys
      && (forall n :: n != ns ==> SameAt(o.common.custom, p.common.custom, n))
      && o.common.custom[ns].parentId == Some(parentId)
      && o.common.custom[ns].linked == Some(true)
      && o.common.custom[ns].enabled == false
      && o.common.custom[ns].id == None && o.common.custom[ns].name == None
      && o.common.custom[ns].other == map[]
      && o.native == map[]
  {
  }

  // ----- Generation equals overlaying its store-free effect -----

  /** Map union is associative; the later map wins on shared keys. */
  lemma UnionAssoc<K, V>(a: map<K, V>, b: map<K, V>, c: map<K, V>)
    ensures (a + b) + c == a + (b + c)
  {
  }

  /**
   * One visit, through the per-parent writes: an aborting parent leaves the
   * store as it was; any other overlays its object and state writes and
   * appends its log entry.
   */
  lemma VisitEffect(ns: string, id: string, p: Obj, s: Store)
    ensures Visit(ns, id, p, s) ==
      if Aborts(ns, id, p) then Run(s, Aborted(id))
      else Run(Store(s.objects + ObjectWrite(ns, id, p),
                     s.states + StateWrite(ns, id, p, s.states),
                     s.errors + ErrorEntry(ns, id, p)), Completed)
  {
    if IsLinkable(ns, id, p) && !Aborts(ns, id, p) {
      var t := LinkTarget(ns, p);
      assert s.objects[t := LinkedObject(ns, id, p)] == s.objects + ObjectWrite(ns, id, p);
      if id in s.states {
        assert s.states[t := LinkedState(s.states[id])] == s.states + StateWrite(ns, id, p, s.states);
      } else {
        assert s.states == s.states + StateWrite(ns, id, p, s.states);
      }
      assert s.errors == s.errors + ErrorEntry(ns, id, p);
    } else if !Aborts(ns, id, p) {
      assert s.objects == s.objects + ObjectWrite(ns, id, p);
      assert s.states == s.states + StateWrite(ns, id, p, s.states);
    }
  }

  /**
   * What one visited parent writes and logs depends on its object and its
   * state only when its id does not contain the namespace.
   */
  lemma WritesAgree(ns: string, id: string, pA: Obj, pB: Obj, stA: map<string, State>, stB: map<string, State>)
    requires !Contains(id, ns) ==> pA == pB && SameAt(stA, stB, id)
    ensures ObjectWrite(ns, id, pA) == ObjectWrite(ns, id, pB)
    ensures StateWrite(ns, id, pA, stA) == StateWrite(ns, id, pB, stB)
    ensures ErrorEntry(ns, id, pA) == ErrorEntry(ns, id, pB)
    ensures Aborts(ns, id, pA) <==> Aborts(ns, id, pB)
  {
  }

  /**
   * The store-free reference definitions read the enumerated objects and the
   * parents' states only at ids that do not contain the namespace.
   */
  lemma {:induction false} OverlaysAgree(ns: string, snapA: map<string, Obj>, snapB: map<string, Obj>,
                                        stA: map<string, State>, stB: map<string, State>, ids: seq<string>)
    requires forall k | k in ids :: k in snapA && k in snapB
    requires forall k | k in ids && !Contains(k, ns) :: snapA[k] == snapB[k] && SameAt(stA, stB, k)
    ensures WrittenObjects(ns, snapA, ids) == WrittenObjects(ns, snapB, ids)
    ensures WrittenStates(ns, snapA, stA, ids) == WrittenStates(ns, snapB, stB, ids)
    ensures ErrorLog(ns, snapA, ids) == ErrorLog(ns, snapB, ids)
    ensures NoAborts(ns, snapA, ids) <==> NoAborts(ns, snapB, ids)
    decreases |ids|
  {
    if ids != [] {
      WritesAgree(ns, ids[0], snapA[ids[0]], snapB[ids[0]], stA, stB);
      OverlaysAgree(ns, snapA, snapB, stA, stB, ids[1..]);
      NoAbortsCons(ns, snapA, ids);
      NoAbortsCons(ns, snapB, ids);
    }
  }

  /** NoAborts of a non-empty enumeration, one element at a time. */
  lemma NoAbortsCons(ns: string, snap: map<string, Obj>, ids: seq<string>)
    requires ids != [] && forall k | k in ids :: k in snap
    ensures NoAborts(ns, snap, ids) <==> !Aborts(ns, ids[0], snap[ids[0]]) && NoAborts(ns, snap, ids[1..])
  {
    if !Aborts(ns, ids[0], snap[ids[0]]) && NoAborts(ns, snap, ids[1..]) {
      forall j | 0 <= j < |ids| ensures !Aborts(ns, ids[j], snap[ids[j]]) {
        if j > 0 {
          assert ids[j] == ids[1..][j - 1];
        }
      }
    }
  }

  /** A linked id contains the namespace, so it is never one of the ids the overlays read. */
  lemma LinkTargetContainsNamespace(ns: string, p: Obj)
    requires ns in p.common.custom && p.common.custom[ns].id.Some?
    ensures IsOwnId(ns, LinkTarget(ns, p)) && Contains(LinkTarget(ns, p), ns)
  {
    OwnIdContainsNamespace(ns, LinkTarget(ns, p));
  }

  /** A visit changes states only at ids that contain the namespace. */
  lemma VisitKeepsParentStates(ns: string, id: string, p: Obj, s: Store)
    ensures forall k | !Contains(k, ns) :: SameAt(Visit(ns, id, p, s).store.states, s.states, k)
  {
    VisitEffect(ns, id, p, s);
    if IsLinkable(ns, id, p) {
      LinkTargetContainsNamespace(ns, p);
    }
  }

  /**
   * The generation loop, run from any store, leaves the store overlaid with
   * the linked objects and states the enumerated parents write, and the log
   * extended with their configuration errors, up to the first abort.
   */
  lemma {:induction false} GenerateOverlay(ns: string, snap: map<string, Obj>, ids: seq<string>, s: Store)
    requires forall k | k in ids :: k in snap
    ensures var r := Generate(ns, snap, ids, s);
      && r.store.objects == s.objects + WrittenObjects(ns, snap, ids)
      && r.store.states == s.states + WrittenStates(ns, snap, s.states, ids)
      && r.store.errors == s.errors + ErrorLog(ns, snap, ids)
    decreases |ids|
  {
    if ids != [] {
      var id, p, rest := ids[0], snap[ids[0]], ids[1..];
      VisitEffect(ns, id, p, s);
      if !Aborts(ns, id, p) {
        var s1 := Visit(ns, id, p, s).store;
        GenerateOverlay(ns, snap, rest, s1);
        VisitKeepsParentStates(ns, id, p, s);
        OverlaysAgree(ns, snap, snap, s1.states, s.states, rest);
        UnionAssoc(s.objects, ObjectWrite(ns, id, p), WrittenObjects(ns, snap, rest));
        UnionAssoc(s.states, StateWrite(ns, id, p, s.states), WrittenStates(ns, snap, s.states, rest));
        assert s.errors + ErrorEntry(ns, id, p) + ErrorLog(ns, snap, rest)
            == s.errors + (ErrorEntry(ns, id, p) + ErrorLog(ns, snap, rest));
      }
    }
  }

  /**
   * The generation loop completes exactly when no enumerated parent reaches
   * the builder without a custom name; otherwise it stops at such a parent.
   */
  lemma {:induction false} GenerateOutcome(ns: string, snap: map<string, Obj>, ids: seq<string>, s: Store)
    requires forall k | k in ids :: k in snap
    ensures var r := Generate(ns, snap, ids, s);
      && (r.outcome == Completed <==> NoAborts(ns, snap, ids))
      && (r.outcome.Aborted? ==> r.outcome.parentId in ids && Aborts(ns, r.outcome.parentId, snap[r.outcome.parentId]))
    decreases |ids|
  {
    if ids != [] {
      NoAbortsCons(ns, snap, ids);
      VisitEffect(ns, ids[0], snap[ids[0]], s);
      if !Aborts(ns, ids[0], snap[ids[0]]) {
        GenerateOutcome(ns, snap, ids[1..], Visit(ns, ids[0], snap[ids[0]], s).store);
      }
    }
  }

  /** A visited id that contains the namespace writes and logs nothing, and does not abort. */
  lemma OwnIdWritesNothing(ns: string, id: string, p: Obj, st: map<string, State>)
    requires Contains(id, ns)
    ensures ObjectWrite(ns, id, p) == map[] && StateWrite(ns, id, p, st) == map[]
    ensures ErrorEntry(ns, id, p) == [] && !Aborts(ns, id, p)
  {
  }

  /** Filtering out the ids that contain the namespace, one element at a time. */
  lemma ForeignCons(ns: string, ids: seq<string>)
    requires ids != [] && !Contains(ids[0], ns)
    ensures Foreign(ns, ids) != [] && Foreign(ns, ids)[0] == ids[0] && Foreign(ns, ids)[1..] == Foreign(ns, ids[1..])
  {
    assert Foreign(ns, ids) == [ids[0]] + Foreign(ns, ids[1..]);
  }

  /** An id that contains the namespace is filtered out. */
  lemma ForeignSkips(ns: string, ids: seq<string>)
    requires ids != [] && Contains(ids[0], ns)
    ensures Foreign(ns, ids) == Foreign(ns, ids[1..])
  {
    assert [] + Foreign(ns, ids[1..]) == Foreign(ns, ids[1..]);
  }

  /** The objects generation writes ignore enumerated ids that contain the namespace. */
  lemma {:induction false} ObjectsIgnoreOwn(ns: string, snap: map<string, Obj>, ids: seq<string>)
    requires forall k | k in ids :: k in snap
    ensures WrittenObjects(ns, snap, ids) == WrittenObjects(ns, snap, Foreign(ns, ids))
    decreases |ids|
  {
    if ids != [] {
      ObjectsIgnoreOwn(ns, snap, ids[1..]);
      if Contains(ids[0], ns) {
        ForeignSkips(ns, ids);
        OwnIdWritesNothing(ns, ids[0], snap[ids[0]], map[]);
        assert map[] + WrittenObjects(ns, snap, ids[1..]) == WrittenObjects(ns, snap, ids[1..]);
      } else {
        ForeignCons(ns, ids);
      }
    }
  }

  /** The states generation writes ignore enumerated ids that contain the namespace. */
  lemma {:induction false} StatesIgnoreOwn(ns: string, snap: map<string, Obj>, st: map<string, State>, ids: seq<string>)
    requires forall k | k in ids :: k in snap
    ensures WrittenStates(ns, snap, st, ids) == WrittenStates(ns, snap, st, Foreign(ns, ids))
    decreases |ids|
  {
    if ids != [] {
      StatesIgnoreOwn(ns, snap, st, ids[1..]);
      if Contains(ids[0], ns) {
        ForeignSkips(ns, ids);
        OwnIdWritesNothing(ns, ids[0], snap[ids[0]], st);
        assert map[] + WrittenStates(ns, snap, st, ids[1..]) == WrittenStates(ns, snap, st, ids[1..]);
      } else {
        ForeignCons(ns, ids);
      }
    }
  }

  /** The error log ignores enumerated ids that contain the namespace. */
  lemma {:induction false} ErrorsIgnoreOwn(ns: string, snap: map<string, Obj>, ids: seq<string>)
    requires forall k | k in ids :: k in snap
    ensures ErrorLog(ns, snap, ids) == ErrorLog(ns, snap, Foreign(ns, ids))
    decreases |ids|
  {
    if ids != [] {
      ErrorsIgnoreOwn(ns, snap, ids[1..]);
      if Contains(ids[0], ns) {
        ForeignSkips(ns, ids);
        OwnIdWritesNothing(ns, ids[0], snap[ids[0]], map[]);
        assert [] + ErrorLog(ns, snap, ids[1..]) == ErrorLog(ns, snap, ids[1..]);
      } else {
        ForeignCons(ns, ids);
      }
    }
  }

  /** Whether the pass aborts ignores enumerated ids that contain the namespace. */
  lemma {:induction false} AbortsIgnoreOwn(ns: string, snap: map<string, Obj>, ids: seq<string>)
    requires forall k | k in ids :: k in snap
    ensures NoAborts(ns, snap, ids) <==> NoAborts(ns, snap, Foreign(ns, ids))
    decreases |ids|
  {
    if ids != [] {
      AbortsIgnoreOwn(ns, snap, ids[1..]);
      NoAbortsCons(ns, snap, ids);
      if Contains(ids[0], ns) {
        ForeignSkips(ns, ids);
        OwnIdWritesNothing(ns, ids[0], snap[ids[0]], map[]);
      } else {
        ForeignCons(ns, ids);
        NoAbortsCons(ns, snap, Foreign(ns, ids));
      }
    }
  }

  // ----- What the overlays hold -----

  /** A parent that derives k at a position after the first. */
  lemma DerivesTail(ns: string, snap: map<string, Obj>, ids: seq<string>, k: string)
    requires ids != []
    ensures Derives(ns, snap, ids, k) <==> DerivesAt(ns, snap, ids, k, 0) || Derives(ns, snap, ids[1..], k)
  {
    if Derives(ns, snap, ids[1..], k) {
      var j :| DerivesAt(ns, snap, ids[1..], k, j);
      assert DerivesAt(ns, snap, ids, k, j + 1);
    }
    if Derives(ns, snap, ids, k) {
      var j :| DerivesAt(ns, snap, ids, k, j);
      if j > 0 {
        assert DerivesAt(ns, snap, ids[1..], k, j - 1);
      }
    }
  }

  /** The one id a visited parent writes is the id it derives, in the adapter's namespace; a state only goes with an object. */
  lemma WriteKeys(ns: string, id: string, p: Obj, st: map<string, State>)
    ensures forall k | k in ObjectWrite(ns, id, p) ::
      IsLinkable(ns, id, p) && LinkTarget(ns, p) == k && IsOwnId(ns, k)
    ensures IsLinkable(ns, id, p) && !Aborts(ns, id, p) ==> LinkTarget(ns, p) in ObjectWrite(ns, id, p)
    ensures StateWrite(ns, id, p, st).Keys <= ObjectWrite(ns, id, p).Keys
  {
  }

  /** Generation writes only at ids derived by enumerated parents, all in the adapter's namespace. */
  lemma {:induction false} WrittenKeysDerived(ns: string, snap: map<string, Obj>, ids: seq<string>)
    requires forall k | k in ids :: k in snap
    ensures forall k | k in WrittenObjects(ns, snap, ids) :: Derives(ns, snap, ids, k) && IsOwnId(ns, k)
    decreases |ids|
  {
    if ids != [] && !Aborts(ns, ids[0], snap[ids[0]]) {
      WrittenKeysDerived(ns, snap, ids[1..]);
      WriteKeys(ns, ids[0], snap[ids[0]], map[]);
      forall k | k in WrittenObjects(ns, snap, ids) ensures Derives(ns, snap, ids, k) {
        DerivesTail(ns, snap, ids, k);
        if k in ObjectWrite(ns, ids[0], snap[ids[0]]) {
          assert DerivesAt(ns, snap, ids, k, 0);
        }
      }
    }
  }

  /** Generation writes a state only at an id where it writes an object. */
  lemma {:induction false} WrittenStatesKeys(ns: string, snap: map<string, Obj>, st: map<string, State>, ids: seq<string>)
    requires forall k | k in ids :: k in snap
    ensures WrittenStates(ns, snap, st, ids).Keys <= WrittenObjects(ns, snap, ids).Keys
    decreases |ids|
  {
    if ids != [] && !Aborts(ns, ids[0], snap[ids[0]]) {
      WrittenStatesKeys(ns, snap, st, ids[1..]);
      WriteKeys(ns, ids[0], snap[ids[0]], st);
    }
  }

  /** When no parent aborts, generation writes every id an enumerated parent derives. */
  lemma {:induction false} WrittenCoversDerived(ns: string, snap: map<string, Obj>, ids: seq<string>, k: string)
    requires forall k | k in ids :: k in snap
    requires NoAborts(ns, snap, ids) && Derives(ns, snap, ids, k)
    ensures k in WrittenObjects(ns, snap, ids)
    decreases |ids|
  {
    NoAbortsCons(ns, snap, ids);
    DerivesTail(ns, snap, ids, k);
    WriteKeys(ns, ids[0], snap[ids[0]], map[]);
    if Derives(ns, snap, ids[1..], k) {
      WrittenCoversDerived(ns, snap, ids[1..], k);
    }
  }

  /**
   * Generation writes an object at `k` exactly when some enumerated parent
   * derives `k`, reaches the builder with a name, and is visited before any
   * parent aborts the pass.
   */
  lemma {:induction false} WrittenIffWritesAt(ns: string, snap: map<string, Obj>, ids: seq<string>, k: string)
    requires forall k | k in ids :: k in snap
    ensures k in WrittenObjects(ns, snap, ids) <==> exists j :: WritesAt(ns, snap, ids, k, j)
    decreases |ids|
  {
    if ids == [] {
    } else if Aborts(ns, ids[0], snap[ids[0]]) {
      forall j ensures !WritesAt(ns, snap, ids, k, j) {
        if 0 < j < |ids| {
          assert Aborts(ns, ids[0], snap[ids[0]]);
        }
      }
    } else {
      var rest := ids[1..];
      WrittenIffWritesAt(ns, snap, rest, k);
      assert WrittenObjects(ns, snap, ids) == ObjectWrite(ns, ids[0], snap[ids[0]]) + WrittenObjects(ns, snap, rest);
      if k in WrittenObjects(ns, snap, ids) {
        if k in ObjectWrite(ns, ids[0], snap[ids[0]]) {
          assert WritesAt(ns, snap, ids, k, 0);
        } else {
          var j :| WritesAt(ns, snap, rest, k, j);
          forall i | 0 <= i < j + 1 ensures !Aborts(ns, ids[i], snap[ids[i]]) {
            if i > 0 {
              assert ids[i] == rest[i - 1];
            }
          }
          assert ids[j + 1] == rest[j];
          assert WritesAt(ns, snap, ids, k, j + 1);
        }
      }
      if exists j :: WritesAt(ns, snap, ids, k, j) {
        var j :| WritesAt(ns, snap, ids, k, j);
        if j == 0 {
          assert k in ObjectWrite(ns, ids[0], snap[ids[0]]);
        } else {
          forall i | 0 <= i < j - 1 ensures !Aborts(ns, rest[i], snap[rest[i]]) {
            assert rest[i] == ids[i + 1];
          }
          assert rest[j - 1] == ids[j];
          assert WritesAt(ns, snap, rest, k, j - 1);
        }
      }
    }
  }

  /**
   * Last write wins: the object generation writes at `k` is the linked object
   * of the last enumerated parent deriving `k`, and so is the state when that
   * parent has one.
   */
  lemma {:induction false} WrittenByLastWriter(ns: string, snap: map<string, Obj>, st: map<string, State>,
                                               ids: seq<string>, k: string, j: int)
    requires forall k | k in ids :: k in snap
    requires NoAborts(ns, snap, ids)
    requires IsLastWriter(ns, snap, ids, k, j)
    ensures k in WrittenObjects(ns, snap, ids)
    ensures WrittenObjects(ns, snap, ids)[k] == LinkedObject(ns, ids[j], snap[ids[j]])
    ensures ids[j] in st ==> k in WrittenStates(ns, snap, st, ids) &&
                             WrittenStates(ns, snap, st, ids)[k] == LinkedState(st[ids[j]])
    ensures ids[j] !in st ==>
      forall i | IsLastStateWriter(ns, snap, st, ids, k, i) ::
        i < j && k in WrittenStates(ns, snap, st, ids) && WrittenStates(ns, snap, st, ids)[k] == LinkedState(st[ids[i]])
    ensures ids[j] !in st && (forall i :: !StateDerivesAt(ns, snap, st, ids, k, i)) ==>
      k !in WrittenStates(ns, snap, st, ids)
    ensures ids[j] !in st && (exists i :: StateDerivesAt(ns, snap, st, ids, k, i)) ==>
      exists i :: i < j && IsLastStateWriter(ns, snap, st, ids, k, i) &&
        k in WrittenStates(ns, snap, st, ids) && WrittenStates(ns, snap, st, ids)[k] == LinkedState(st[ids[i]])
    decreases |ids|
  {
    if exists i :: StateDerivesAt(ns, snap, st, ids, k, i) {
      var i0 :| StateDerivesAt(ns, snap, st, ids, k, i0);
      LastStateWriterExists(ns, snap, st, ids, k, i0);
    }
    forall i | IsLastStateWriter(ns, snap, st, ids, k, i)
      ensures k in WrittenStates(ns, snap, st, ids) && WrittenStates(ns, snap, st, ids)[k] == LinkedState(st[ids[i]])
    {
      WrittenStateByLastStateWriter(ns, snap, st, ids, k, i);
    }
    WrittenStatesDerived(ns, snap, st, ids);
    WrittenObjectByLastWriter(ns, snap, ids, k, j);
    if ids[j] in st {
      WrittenStateByLastStateWriter(ns, snap, st, ids, k, j);
    }
  }

  /** Last write wins for objects: the object written at `k` is the linked object of the last parent deriving `k`. */
  lemma {:induction false} WrittenObjectByLastWriter(ns: string, snap: map<string, Obj>, ids: seq<string>, k: string, j: int)
    requires forall k | k in ids :: k in snap
    requires NoAborts(ns, snap, ids)
    requires IsLastWriter(ns, snap, ids, k, j)
    ensures k in WrittenObjects(ns, snap, ids)
    ensures WrittenObjects(ns, snap, ids)[k] == LinkedObject(ns, ids[j], snap[ids[j]])
    decreases |ids|
  {
    NoAbortsCons(ns, snap, ids);
    var rest := ids[1..];
    if j == 0 {
      WrittenKeysDerived(ns, snap, rest);
      forall j' ensures !DerivesAt(ns, snap, rest, k, j') {
        if 0 <= j' < |rest| {
          assert ids[j' + 1] == rest[j'];
          assert !DerivesAt(ns, snap, ids, k, j' + 1);
        }
      }
    } else {
      forall j' | j - 1 < j' < |rest| ensures !DerivesAt(ns, snap, rest, k, j') {
        assert !DerivesAt(ns, snap, ids, k, j' + 1);
      }
      WrittenObjectByLastWriter(ns, snap, rest, k, j - 1);
    }
  }

  /**
   * Generation writes a state at `k` only if some enumerated parent derives
   * `k` and has a state; with no such parent, no state is written at `k`.
   */
  lemma {:induction false} WrittenStatesDerived(ns: string, snap: map<string, Obj>, st: map<string, State>, ids: seq<string>)
    requires forall k | k in ids :: k in snap
    ensures forall k | k in WrittenStates(ns, snap, st, ids) :: exists j :: StateDerivesAt(ns, snap, st, ids, k, j)
    decreases |ids|
  {
    if ids != [] && !Aborts(ns, ids[0], snap[ids[0]]) {
      var rest := ids[1..];
      WrittenStatesDerived(ns, snap, st, rest);
      forall k | k in WrittenStates(ns, snap, st, ids) ensures exists j :: StateDerivesAt(ns, snap, st, ids, k, j) {
        if k in StateWrite(ns, ids[0], snap[ids[0]], st) {
          assert StateDerivesAt(ns, snap, st, ids, k, 0);
        } else {
          assert WrittenStates(ns, snap, st, ids) == StateWrite(ns, ids[0], snap[ids[0]], st) + WrittenStates(ns, snap, st, rest);
          assert k in WrittenStates(ns, snap, st, rest);
          var j :| StateDerivesAt(ns, snap, st, rest, k, j);
          assert ids[j + 1] == rest[j];
          assert StateDerivesAt(ns, snap, st, ids, k, j + 1);
        }
      }
    }
  }

  /**
   * Without an abort, the state generation writes at `k` is that of the last
   * enumerated parent that derives `k` and has a state, even when a later
   * parent without a state rewrote the object there.
   */
  lemma {:induction false} WrittenStateByLastStateWriter(ns: string, snap: map<string, Obj>, st: map<string, State>,
                                                         ids: seq<string>, k: string, j: int)
    requires forall k | k in ids :: k in snap
    requires NoAborts(ns, snap, ids)
    requires IsLastStateWriter(ns, snap, st, ids, k, j)
    ensures k in WrittenStates(ns, snap, st, ids)
    ensures WrittenStates(ns, snap, st, ids)[k] == LinkedState(st[ids[j]])
    decreases |ids|
  {
    NoAbortsCons(ns, snap, ids);
    var rest := ids[1..];
    if j == 0 {
      WrittenStatesDerived(ns, snap, st, rest);
      forall j' ensures !StateDerivesAt(ns, snap, st, rest, k, j') {
        if 0 <= j' < |rest| {
          assert ids[j' + 1] == rest[j'];
          assert !StateDerivesAt(ns, snap, st, ids, k, j' + 1);
        }
      }
    } else {
      forall j' | j - 1 < j' < |rest| ensures !StateDerivesAt(ns, snap, st, rest, k, j') {
        assert ids[j' + 1] == rest[j'];
        assert !StateDerivesAt(ns, snap, st, ids, k, j' + 1);
      }
      WrittenStateByLastStateWriter(ns, snap, st, rest, k, j - 1);
    }
  }

  /** Every id some enumerated parent with a state derives has a last such parent, at or after the given one. */
  lemma {:induction false} LastStateWriterExists(ns: string, snap: map<string, Obj>, st: map<string, State>,
                                                 ids: seq<string>, k: string, j: int)
    requires StateDerivesAt(ns, snap, st, ids, k, j)
    ensures exists i :: j <= i && IsLastStateWriter(ns, snap, st, ids, k, i)
    decreases |ids| - j
  {
    if exists j' :: j < j' < |ids| && StateDerivesAt(ns, snap, st, ids, k, j') {
      var j' :| j < j' < |ids| && StateDerivesAt(ns, snap, st, ids, k, j');
      LastStateWriterExists(ns, snap, st, ids, k, j');
    } else {
      assert IsLastStateWriter(ns, snap, st, ids, k, j);
    }
  }

  /**
   * Without an abort, generation writes a state at every id that an
   * enumerated parent with a state derives, whatever parents without a state
   * derive it later.
   */
  lemma WrittenStatesCoverDerived(ns: string, snap: map<string, Obj>, st: map<string, State>,
                                  ids: seq<string>, k: string, j: int)
    requires forall k | k in ids :: k in snap
    requires NoAborts(ns, snap, ids)
    requires StateDerivesAt(ns, snap, st, ids, k, j)
    ensures k in WrittenStates(ns, snap, st, ids)
  {
    LastStateWriterExists(ns, snap, st, ids, k, j);
    var i :| j <= i && IsLastStateWriter(ns, snap, st, ids, k, i);
    WrittenStateByLastStateWriter(ns, snap, st, ids, k, i);
  }

  /** Every id some enumerated parent derives has a last such parent. */
  lemma {:induction false} LastWriterExists(ns: string, snap: map<string, Obj>, ids: seq<string>, k: string)
    requires Derives(ns, snap, ids, k)
    ensures exists j :: IsLastWriter(ns, snap, ids, k, j)
    decreases |ids|
  {
    DerivesTail(ns, snap, ids, k);
    if Derives(ns, snap, ids[1..], k) {
      LastWriterExists(ns, snap, ids[1..], k);
      var j :| IsLastWriter(ns, snap, ids[1..], k, j);
      forall j' | j + 1 < j' < |ids| ensures !DerivesAt(ns, snap, ids, k, j') {
        assert !DerivesAt(ns, snap, ids[1..], k, j' - 1);
      }
      assert IsLastWriter(ns, snap, ids, k, j + 1);
    } else {
      forall j' | 0 < j' < |ids| ensures !DerivesAt(ns, snap, ids, k, j') {
        if DerivesAt(ns, snap, ids, k, j') {
          assert DerivesAt(ns, snap, ids[1..], k, j' - 1);
        }
      }
      assert IsLastWriter(ns, snap, ids, k, 0);
    }
  }

  // ----- The error log -----

  /** Every logged error names an enumerated parent and is that parent's configuration error. */
  lemma {:induction false} ErrorLogSound(ns: string, snap: map<string, Obj>, ids: seq<string>)
    requires forall k | k in ids :: k in snap
    ensures forall e | e in ErrorLog(ns, snap, ids) ::
      e.parentId in ids && ConfigErrorOf(ns, e.parentId, snap[e.parentId]) == Some(e)
    decreases |ids|
  {
    if ids != [] {
      ErrorLogSound(ns, snap, ids[1..]);
    }
  }

  /** Counting log entries is additive over concatenation. */
  lemma {:induction false} CountForAppend(a: seq<ConfigError>, b: seq<ConfigError>, parentId: string)
    ensures CountFor(a + b, parentId) == CountFor(a, parentId) + CountFor(b, parentId)
    decreases |a|
  {
    if a != [] {
      assert (a + b)[0] == a[0] && (a + b)[1..] == a[1..] + b;
      CountForAppend(a[1..], b, parentId);
    } else {
      assert a + b == b;
    }
  }

  /**
   * With distinct enumerated ids and no abort, each enumerated parent with a
   * configuration error gets exactly one log entry, and no other id gets any:
   * the scan goes on past a rejected parent.
   */
  lemma {:induction false} ErrorLogExactlyOnce(ns: string, snap: map<string, Obj>, ids: seq<string>, pid: string)
    requires forall k | k in ids :: k in snap
    requires Distinct(ids) && NoAborts(ns, snap, ids)
    ensures CountFor(ErrorLog(ns, snap, ids), pid) ==
            if pid in ids && ConfigErrorOf(ns, pid, snap[pid]).Some? then 1 else 0
    decreases |ids|
  {
    if ids != [] {
      var rest := ids[1..];
      NoAbortsCons(ns, snap, ids);
      assert Distinct(rest) by {
        forall i, j | 0 <= i < j < |rest| ensures rest[i] != rest[j] {
          assert rest[i] == ids[i + 1] && rest[j] == ids[j + 1];
        }
      }
      ErrorLogExactlyOnce(ns, snap, rest, pid);
      var here := match ConfigErrorOf(ns, ids[0], snap[ids[0]]) case Some(e) => [e] case None => [];
      CountForAppend(here, ErrorLog(ns, snap, rest), pid);
      assert pid in ids <==> pid == ids[0] || pid in rest;
      if pid == ids[0] {
        assert pid !in rest by {
          forall i | 0 <= i < |rest| ensures rest[i] != pid {
            assert rest[i] == ids[i + 1];
          }
        }
      }
      if here != [] {
        assert here[1..] == [];
      }
    }
  }

  // ----- The whole pass -----

  /** The enumerated objects after the reset agree with the original store at every id outside the namespace. */
  lemma ResetKeepsForeign(ns: string, s: Store, ownIds: seq<string>)
    requires EnumeratesOwn(ns, s.objects, ownIds)
    ensures var reset := Reset(ns, s.objects, ownIds, s.objects);
      forall k | !Contains(k, ns) :: SameAt(reset, s.objects, k)
  {
    ResetEffect(ns, s.objects, ownIds, s.objects);
    forall k | IsOwnId(ns, k) ensures Contains(k, ns) {
      OwnIdContainsNamespace(ns, k);
    }
  }

  /**
   * The pass, stated on the store it starts from: own objects reset, then
   * overlaid with what the enumerated parents write; parents' states copied;
   * configuration errors logged; completed exactly when no parent aborts.
   */
  lemma PassEffect(ns: string, s: Store, ownIds: seq<string>, allIds: seq<string>)
    requires EnumeratesOwn(ns, s.objects, ownIds)
    requires forall k | k in allIds :: k in s.objects
    ensures var r := Pass(ns, s, ownIds, allIds);
      && r.store.objects == Reset(ns, s.objects, ownIds, s.objects) + WrittenObjects(ns, s.objects, allIds)
      && r.store.states == s.states + WrittenStates(ns, s.objects, s.states, allIds)
      && r.store.errors == s.errors + ErrorLog(ns, s.objects, allIds)
      && (r.outcome == Completed <==> NoAborts(ns, s.objects, allIds))
  {
    var reset := Reset(ns, s.objects, ownIds, s.objects);
    ResetKeepsForeign(ns, s, ownIds);
    GenerateOverlay(ns, reset, allIds, s.(objects := reset));
    GenerateOutcome(ns, reset, allIds, s.(objects := reset));
    OverlaysAgree(ns, reset, s.objects, s.states, s.states, allIds);
  }

  /**
   * After a pass, an own object carrying a custom block says `linked: true`
   * only if some enumerated parent derived its id and wrote it in this pass:
   * it reached the builder with a name before any parent aborted the pass.
   */
  lemma PassLinkedOnlyIfDerived(ns: string, s: Store, ownIds: seq<string>, allIds: seq<string>, k: string)
    requires EnumeratesOwn(ns, s.objects, ownIds)
    requires forall k | k in allIds :: k in s.objects
    requires var r := Pass(ns, s, ownIds, allIds).store;
      && k in r.objects && IsOwnId(ns, k)
      && ns in r.objects[k].common.custom && r.objects[k].common.custom[ns].linked == Some(true)
    ensures Derives(ns, s.objects, allIds, k)
    ensures k in WrittenObjects(ns, s.objects, allIds)
    ensures exists j :: WritesAt(ns, s.objects, allIds, k, j)
  {
    PassEffect(ns, s, ownIds, allIds);
    ResetEffect(ns, s.objects, ownIds, s.objects);
    WrittenKeysDerived(ns, s.objects, allIds);
    WrittenIffWritesAt(ns, s.objects, allIds, k);
  }

  /**
   * After a pass, every id an enumerated parent derives holds the linked
   * object of the last such parent, which says `linked: true` and names that
   * parent; the state there is that parent's value, acknowledged, when it has
   * a state. (No parent aborts exactly when the pass completes: PassEffect.)
   */
  lemma PassRelinks(ns: string, s: Store, ownIds: seq<string>, allIds: seq<string>, k: string, j: int)
    requires EnumeratesOwn(ns, s.objects, ownIds)
    requires forall k | k in allIds :: k in s.objects
    requires NoAborts(ns, s.objects, allIds)
    requires IsLastWriter(ns, s.objects, allIds, k, j)
    ensures var r := Pass(ns, s, ownIds, allIds).store;
      && k in r.objects
      && r.objects[k] == LinkedObject(ns, allIds[j], s.objects[allIds[j]])
      && r.objects[k].common.custom[ns] == LinkStatus(allIds[j])
      && (allIds[j] in s.states ==> k in r.states && r.states[k] == State(s.states[allIds[j]].val, true))
  {
    PassEffect(ns, s, ownIds, allIds);
    WrittenByLastWriter(ns, s.objects, s.states, allIds, k, j);
  }

  /**
   * After a completed pass, the state at a derived id is that of the last
   * enumerated parent deriving it that has a state. When the last deriving
   * parent has none, the object names that parent while the state comes
   * from an earlier one.
   */
  lemma PassLinkState(ns: string, s: Store, ownIds: seq<string>, allIds: seq<string>, k: string, j: int)
    requires EnumeratesOwn(ns, s.objects, ownIds)
    requires forall k | k in allIds :: k in s.objects
    requires NoAborts(ns, s.objects, allIds)
    requires IsLastStateWriter(ns, s.objects, s.states, allIds, k, j)
    ensures var r := Pass(ns, s, ownIds, allIds).store;
      k in r.states && r.states[k] == State(s.states[allIds[j]].val, true)
  {
    PassEffect(ns, s, ownIds, allIds);
    WrittenStateByLastStateWriter(ns, s.objects, s.states, allIds, k, j);
  }

  /**
   * A pass writes no state at `k` when no enumerated parent that derives `k`
   * has a state: the state there, if any, is the one the store held before.
   */
  lemma PassNoStateWritten(ns: string, s: Store, ownIds: seq<string>, allIds: seq<string>, k: string)
    requires EnumeratesOwn(ns, s.objects, ownIds)
    requires forall k | k in allIds :: k in s.objects
    requires forall j :: !StateDerivesAt(ns, s.objects, s.states, allIds, k, j)
    ensures SameAt(Pass(ns, s, ownIds, allIds).store.states, s.states, k)
  {
    PassEffect(ns, s, ownIds, allIds);
    WrittenStatesDerived(ns, s.objects, s.states, allIds);
  }

  /** A pass leaves objects and states as they were at every id that does not contain the namespace. */
  lemma PassKeepsForeign(ns: string, s: Store, ownIds: seq<string>, allIds: seq<string>)
    requires EnumeratesOwn(ns, s.objects, ownIds)
    requires forall k | k in allIds :: k in s.objects
    ensures var r := Pass(ns, s, ownIds, allIds).store;
      forall k | !Contains(k, ns) :: SameAt(r.objects, s.objects, k) && SameAt(r.states, s.states, k)
  {
    PassEffect(ns, s, ownIds, allIds);
    ResetKeepsForeign(ns, s, ownIds);
    WrittenKeysDerived(ns, s.objects, allIds);
    WrittenStatesKeys(ns, s.objects, s.states, allIds);
    forall k | IsOwnId(ns, k) ensures Contains(k, ns) {
      OwnIdContainsNamespace(ns, k);
    }
  }

  /**
   * A second pass over the store a first pass left, enumerating the same
   * parents in the same order, writes and logs what the first one did.
   */
  lemma SecondPassWritesSame(ns: string, s: Store, own1: seq<string>, all1: seq<string>, all2: seq<string>)
    requires EnumeratesOwn(ns, s.objects, own1)
    requires forall k | k in all1 :: k in s.objects
    requires forall k | k in all2 :: k in Pass(ns, s, own1, all1).store.objects
    requires Foreign(ns, all2) == Foreign(ns, all1)
    ensures var r1 := Pass(ns, s, own1, all1).store;
      && WrittenObjects(ns, r1.objects, all2) == WrittenObjects(ns, s.objects, all1)
      && WrittenStates(ns, r1.objects, r1.states, all2) == WrittenStates(ns, s.objects, s.states, all1)
      && ErrorLog(ns, r1.objects, all2) == ErrorLog(ns, s.objects, all1)
      && (NoAborts(ns, r1.objects, all2) <==> NoAborts(ns, s.objects, all1))
  {
    var r1 := Pass(ns, s, own1, all1).store;
    PassKeepsForeign(ns, s, own1, all1);
    ObjectsIgnoreOwn(ns, r1.objects, all2);
    ObjectsIgnoreOwn(ns, s.objects, all1);
    StatesIgnoreOwn(ns, r1.objects, r1.states, all2);
    StatesIgnoreOwn(ns, s.objects, s.states, all1);
    ErrorsIgnoreOwn(ns, r1.objects, all2);
    ErrorsIgnoreOwn(ns, s.objects, all1);
    AbortsIgnoreOwn(ns, r1.objects, all2);
    AbortsIgnoreOwn(ns, s.objects, all1);
    OverlaysAgree(ns, r1.objects, s.objects, r1.states, s.states, Foreign(ns, all1));
  }

  /**
   * Resetting again a store that was reset and then overlaid with linked
   * objects, and overlaying the same linked objects again, gives that store
   * back: the second reset only resets what is reset or rewritten already.
   */
  lemma ResetAgainUnderOverlay(ns: string, objects: map<string, Obj>, own1: seq<string>,
                               W: map<string, Obj>, own2: seq<string>)
    requires EnumeratesOwn(ns, objects, own1)
    requires EnumeratesOwn(ns, Reset(ns, objects, own1, objects) + W, own2)
    ensures var r1 := Reset(ns, objects, own1, objects) + W;
      Reset(ns, r1, own2, r1) + W == r1
  {
    var reset1 := Reset(ns, objects, own1, objects);
    var r1 := reset1 + W;
    var reset2 := Reset(ns, r1, own2, r1);
    ResetEffect(ns, objects, own1, objects);
    ResetEffect(ns, r1, own2, r1);
    forall k ensures (k in reset2 + W <==> k in r1) && (k in r1 ==> (reset2 + W)[k] == r1[k]) {
      if k !in W && k in own2 && ns in r1[k].common.custom {
        if k in own1 && ns in objects[k].common.custom {
          ResetObjectIdempotent(ns, objects[k]);
        }
      }
    }
  }

  /** A second pass, as in `PassIdempotent`, leaves the objects of the first pass's result unchanged. */
  lemma PassAgainKeepsObjects(ns: string, s: Store, own1: seq<string>, all1: seq<string>, own2: seq<string>, all2: seq<string>)
    requires EnumeratesOwn(ns, s.objects, own1)
    requires forall k | k in all1 :: k in s.objects
    requires EnumeratesOwn(ns, Pass(ns, s, own1, all1).store.objects, own2)
    requires forall k | k in all2 :: k in Pass(ns, s, own1, all1).store.objects
    requires Foreign(ns, all2) == Foreign(ns, all1)
    ensures var r1 := Pass(ns, s, own1, all1).store;
      Pass(ns, r1, own2, all2).store.objects == r1.objects
  {
    var r1 := Pass(ns, s, own1, all1).store;
    PassEffect(ns, s, own1, all1);
    PassEffect(ns, r1, own2, all2);
    SecondPassWritesSame(ns, s, own1, all1, all2);
    ResetAgainUnderOverlay(ns, s.objects, own1, WrittenObjects(ns, s.objects, all1), own2);
  }

  /** Overlaying the same map twice is overlaying it once. */
  lemma OverlayTwice<K, V>(base: map<K, V>, W: map<K, V>)
    ensures (base + W) + W == base + W
  {
    UnionAssoc(base, W, W);
    assert W + W == W;
  }

  /** A second pass, as in `PassIdempotent`, leaves the states of the first pass's result unchanged. */
  lemma PassAgainKeepsStates(ns: string, s: Store, own1: seq<string>, all1: seq<string>, own2: seq<string>, all2: seq<string>)
    requires EnumeratesOwn(ns, s.objects, own1)
    requires forall k | k in all1 :: k in s.objects
    requires EnumeratesOwn(ns, Pass(ns, s, own1, all1).store.objects, own2)
    requires forall k | k in all2 :: k in Pass(ns, s, own1, all1).store.objects
    requires Foreign(ns, all2) == Foreign(ns, all1)
    ensures var r1 := Pass(ns, s, own1, all1).store;
      Pass(ns, r1, own2, all2).store.states == r1.states
  {
    var r1 := Pass(ns, s, own1, all1).store;
    PassEffect(ns, s, own1, all1);
    PassEffect(ns, r1, own2, all2);
    SecondPassWritesSame(ns, s, own1, all1, all2);
    OverlayTwice(s.states, WrittenStates(ns, s.objects, s.states, all1));
  }

  /**
   * Running the pass again on the store a completed pass left, with the store
   * enumerating the same parents in the same order, completes, leaves the
   * objects and the states as they were, and logs the same configuration
   * errors again.
   */
  lemma PassIdempotent(ns: string, s: Store, own1: seq<string>, all1: seq<string>, own2: seq<string>, all2: seq<string>)
    requires EnumeratesOwn(ns, s.objects, own1)
    requires forall k | k in all1 :: k in s.objects
    requires Pass(ns, s, own1, all1).outcome == Completed
    requires EnumeratesOwn(ns, Pass(ns, s, own1, all1).store.objects, own2)
    requires forall k | k in all2 :: k in Pass(ns, s, own1, all1).store.objects
    requires Foreign(ns, all2) == Foreign(ns, all1)
    ensures var r1 := Pass(ns, s, own1, all1).store;
      var r2 := Pass(ns, r1, own2, all2);
      && r2.outcome == Completed
      && r2.store.objects == r1.objects
      && r2.store.states == r1.states
      && r2.store.errors == r1.errors + ErrorLog(ns, s.objects, all1)
  {
    var r1 := Pass(ns, s, own1, all1).store;
    PassEffect(ns, s, own1, all1);
    PassEffect(ns, r1, own2, all2);
    SecondPassWritesSame(ns, s, own1, all1, all2);
    PassAgainKeepsObjects(ns, s, own1, all1, own2, all2);
    PassAgainKeepsStates(ns, s, own1, all1, own2, all2);
  }
}
