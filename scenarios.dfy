/**
 * Concrete passes. Most run over a one-parent store: a parent
 * `sensors.temp1` named `Temp1`, whose state holds 21.5, configured to be
 * linked as `livingroom.temp`. The last runs over a two-parent store, `a.x`
 * with a state and `b.x` without, both linked as `t`.
 */
module Scenarios {
  import opened StoreModel
  import opened LinkIds
  import opened Reconcile

  const ParentId := "sensors.temp1"
  const Configured := "livingroom.temp"
  const Instance := "linkeddevices.0"
  /** The id the parent derives in `Instance`: `linkeddevices.0.livingroom.temp`. */
  const Target := LinkedObjectId(Instance, Configured)

  /** The parent, configured for namespace `ns` with custom name `name`. */
  function Parent(ns: string, name: Option<string>): Obj
  {
    var block := Custom(true, Some(Configured), name, None, None, map[]);
    Obj("state", Common("Temp1", None, map[ns := block], map[]), map[])
  }

  /** The store holding only the parent and its unacknowledged state. */
  function Before(ns: string, name: Option<string>): Store
  {
    Store(map[ParentId := Parent(ns, name)], map[ParentId := State(Number(21.5), false)], [])
  }

  /** No character the store forbids occurs in `s`. */
  lemma NoIllegalChar(s: string)
    requires forall c | c in IllegalChars :: c !in s
    ensures !HasIllegalChar(s)
  {
  }

  /** The parent's id does not contain `linkeddevices.0`: its letters hold no `l`. */
  lemma ParentSkipsNoInstance()
    ensures !Contains(ParentId, Instance)
  {
    assert 'l' !in ParentId;
    NotContainsFirstChar(ParentId, Instance);
  }

  /** Neither the namespace nor the configured id holds a forbidden character. */
  lemma NamesAreLegal()
    ensures !HasIllegalChar(Instance) && !HasIllegalChar(Configured)
  {
    NoIllegalChar(Instance);
    NoIllegalChar(Configured);
  }

  /** In instance `linkeddevices.0` the parent is linked to `linkeddevices.0.livingroom.temp`. */
  lemma ParentIsLinkable(name: Option<string>)
    ensures IsCandidate(Instance, ParentId, Parent(Instance, name))
    ensures LinkTarget(Instance, Parent(Instance, name)) == Target
    ensures IsLinkable(Instance, ParentId, Parent(Instance, name))
  {
    ParentSkipsNoInstance();
    NamesAreLegal();
    LinkedObjectIdIllegalIff(Instance, Configured);
  }

  /** The store after a pass over the parent with an empty custom name. */
  function Linked(): Store
  {
    var s := Before(Instance, Some(""));
    var linked := BuildLinkedObject(Instance, ParentId, Parent(Instance, Some("")), "Temp1");
    Store(s.objects[Target := linked], s.states[Target := State(Number(21.5), true)], [])
  }

  /**
   * With an empty custom name the pass completes: the linked object carries
   * the parent's name, the provenance description and the link status, and
   * its state is the parent's value, acknowledged.
   */
  lemma EmptyNameUsesParentName()
    ensures Pass(Instance, Before(Instance, Some("")), [], [ParentId]) == Run(Linked(), Completed)
    ensures Target in Linked().objects && Target in Linked().states
    ensures Linked().objects[Target].common.name == "Temp1"
    ensures Linked().objects[Target].common.desc == Some("Created by linkeddevices")
    ensures Linked().objects[Target].common.custom[Instance] == Custom(false, None, None, Some(ParentId), Some(true), map[])
    ensures Linked().objects[Target].native == map[]
    ensures Linked().states[Target] == State(Number(21.5), true)
    ensures Linked().errors == []
  {
    var s := Before(Instance, Some(""));
    var p := Parent(Instance, Some(""));
    ParentIsLinkable(Some(""));
    assert Reset(Instance, s.objects, [], s.objects) == s.objects;
    var ids := [ParentId];
    assert ids[1..] == [];
    assert ResolveName(p.common.custom[Instance], p.common.name) == Some("Temp1");
    assert Visit(Instance, ParentId, p, s) == Run(Linked(), Completed);
    assert Generate(Instance, s.objects, ids, s) == Generate(Instance, s.objects, [], Linked());
  }

  /**
   * Without a custom name the pass aborts at the parent and nothing is
   * written, although the configuration is otherwise valid.
   */
  lemma AbsentNameAborts()
    ensures var s := Before(Instance, None);
      var r := Pass(Instance, s, [], [ParentId]);
      && r.outcome == Aborted(ParentId)
      && r.store == s
  {
    var s := Before(Instance, None);
    ParentIsLinkable(None);
    assert Reset(Instance, s.objects, [], s.objects) == s.objects;
  }

  /**
   * In an instance whose namespace is `ns`, the parent `sensors.temp1` is
   * never visited: its id contains `ns` (in `sensors`), so the pass writes nothing.
   */
  lemma ShortNamespaceSkipsParent()
    ensures Contains(ParentId, "ns")
    ensures Pass("ns", Before("ns", None), [], [ParentId]) == Run(Before("ns", None), Completed)
  {
    assert "ns" <= ParentId[2..];
    ContainsAt(ParentId, "ns");
    var s := Before("ns", None);
    assert Reset("ns", s.objects, [], s.objects) == s.objects;
    var ids := [ParentId];
    assert ids[1..] == [];
    assert Visit("ns", ParentId, s.objects[ParentId], s) == Run(s, Completed);
    assert Generate("ns", s.objects, ids, s) == Generate("ns", s.objects, [], s);
  }

  /** A parent configured in `Instance` to be linked as `t`, with custom name `X`. */
  function TParent(): Obj
  {
    var block := Custom(true, Some("t"), Some("X"), None, None, map[]);
    Obj("state", Common("T", None, map[Instance := block], map[]), map[])
  }

  /** Two parents, `a.x` with a state and `b.x` without, both linked as `t`. */
  function TwoParents(): Store
  {
    Store(map["a.x" := TParent(), "b.x" := TParent()], map["a.x" := State(Number(1.0), false)], [])
  }

  /** The id both parents derive: `linkeddevices.0.t`. */
  const Shared := LinkedObjectId(Instance, "t")

  /** The store after a pass over `a.x` then `b.x`. */
  function AfterTwo(): Store
  {
    var s := TwoParents();
    var objects := s.objects[Shared := LinkedObject(Instance, "a.x", TParent())];
    var states := s.states[Shared := State(Number(1.0), true)];
    Store(objects[Shared := LinkedObject(Instance, "b.x", TParent())], states, [])
  }

  /** Both parents pass the checks and derive `Shared`. */
  lemma TParentIsLinkable(id: string)
    requires id == "a.x" || id == "b.x"
    ensures IsLinkable(Instance, id, TParent()) && LinkTarget(Instance, TParent()) == Shared
  {
    assert Instance[0] == 'l' && 'l' !in id;
    NotContainsFirstChar(id, Instance);
    NamesAreLegal();
    NoIllegalChar("t");
    LinkedObjectIdIllegalIff(Instance, "t");
  }

  /**
   * Last write wins separately for objects and states: when the later parent
   * `b.x` has no state, the object at the shared id names `b.x` while the
   * state there is `a.x`'s value, acknowledged.
   */
  lemma ObjectAndStateFromDifferentParents()
    ensures Pass(Instance, TwoParents(), [], ["a.x", "b.x"]) == Run(AfterTwo(), Completed)
    ensures Shared in AfterTwo().objects && Shared in AfterTwo().states
    ensures AfterTwo().objects[Shared].common.custom[Instance].parentId == Some("b.x")
    ensures AfterTwo().states[Shared] == State(Number(1.0), true)
  {
    var s := TwoParents();
    TParentIsLinkable("a.x");
    TParentIsLinkable("b.x");
    assert Reset(Instance, s.objects, [], s.objects) == s.objects;
    var ids := ["a.x", "b.x"];
    assert ids[1..] == ["b.x"] && ids[1..][1..] == [];
    var s1 := Store(s.objects[Shared := LinkedObject(Instance, "a.x", TParent())], s.states[Shared := State(Number(1.0), true)], []);
    assert Visit(Instance, "a.x", TParent(), s) == Run(s1, Completed);
    assert "b.x" !in s1.states;
    assert Visit(Instance, "b.x", TParent(), s1) == Run(AfterTwo(), Completed);
    assert Generate(Instance, s.objects, ids, s) == Generate(Instance, s.objects, ["b.x"], s1);
    assert Generate(Instance, s.objects, ["b.x"], s1) == Generate(Instance, s.objects, [], AfterTwo());
  }
}
