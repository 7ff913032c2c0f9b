/** What a contract refresh guarantees: a one-step fixpoint, no silently blanked values, ports apart. */
module ContractGuarantees {
  import opened Wrappers
  import opened PortAssignment
  import opened ImageReferences
  import opened ContractRefresh

  // ---- Siblings by key ---------------------------------------------------------------------------

  predicate UniqueServices(sibs: seq<Service>) {
    forall i, j :: 0 <= i < j < |sibs| ==> sibs[i].key != sibs[j].key
  }

  /** The contract names every service once, and maps every (container, protocol) of a service once. */
  predicate WellKeyed(spec: Spec) {
    && UniqueKeys(spec.ports) && UniqueServices(spec.siblings)
    && forall i :: 0 <= i < |spec.siblings| ==> UniqueKeys(spec.siblings[i].ports)
  }

  lemma {:induction false} FindUnique(sibs: seq<Service>, i: nat)
    requires UniqueServices(sibs) && i < |sibs|
    ensures FindService(sibs, sibs[i].key) == Some(sibs[i])
    decreases |sibs|
  {
    var front := sibs[..|sibs| - 1];
    if i < |sibs| - 1 {
      assert front[i] == sibs[i];
      FindUnique(front, i);
    }
  }

  lemma {:induction false} FindIsMember(sibs: seq<Service>, key: string)
    ensures FindService(sibs, key).Some? ==>
      FindService(sibs, key).value in sibs && FindService(sibs, key).value.key == key
    ensures FindService(sibs, key).None? ==> forall i :: 0 <= i < |sibs| ==> sibs[i].key != key
    decreases |sibs|
  {
    if sibs != [] && sibs[|sibs| - 1].key != key {
      var front := sibs[..|sibs| - 1];
      FindIsMember(front, key);
      assert forall i :: 0 <= i < |front| ==> front[i] == sibs[i];
    }
  }

  // ---- The fixpoint ------------------------------------------------------------------------------

  lemma MergeTwice(stored: Env, compose: Env)
    ensures MergedEnv(MergedEnv(stored, compose), compose) == MergedEnv(stored, compose)
    ensures MergedEnv(compose, compose) == compose
  {
    var once := MergedEnv(stored, compose);
    assert MergedEnv(once, compose).Keys == once.Keys;
    assert MergedEnv(compose, compose).Keys == compose.Keys;
  }

  /** The services of a successful assignment: the contract's, each with ports that can be assigned again. */
  lemma {:induction false} AssignedAt(stored: seq<Service>, sibs: seq<Service>, occupied: set<int>, i: nat,
                                      later: set<int>)
    requires AssignedSiblings(stored, sibs, occupied).Some? && i < |sibs| && UniqueKeys(sibs[i].ports)
    ensures var s := AssignedSiblings(stored, sibs, occupied).value.services;
      && |s| == |sibs| && s[i] == sibs[i].(ports := s[i].ports)
      && var again := Preserved(sibs[i].ports, s[i].ports, later);
      again.Some? && again.value.ports == s[i].ports
    decreases |sibs|
  {
    var a := Preserved(sibs[0].ports, OldPorts(stored, sibs[0].key), occupied).value;
    if i > 0 {
      AssignedAt(stored, sibs[1..], a.occupied, i - 1, later);
    } else {
      PreservedTwice(sibs[0].ports, OldPorts(stored, sibs[0].key), occupied, later);
      OnlyPortsAssigned(stored, sibs[1..], a.occupied);
    }
  }

  /** Assigning ports changes nothing else of a sibling. */
  lemma {:induction false} OnlyPortsAssigned(stored: seq<Service>, sibs: seq<Service>, occupied: set<int>)
    requires AssignedSiblings(stored, sibs, occupied).Some?
    ensures var s := AssignedSiblings(stored, sibs, occupied).value.services;
      |s| == |sibs| && forall i :: 0 <= i < |sibs| ==> s[i] == sibs[i].(ports := s[i].ports)
    decreases |sibs|
  {
    if sibs != [] {
      var a := Preserved(sibs[0].ports, OldPorts(stored, sibs[0].key), occupied).value;
      OnlyPortsAssigned(stored, sibs[1..], a.occupied);
      assert forall i :: 1 <= i < |sibs| ==> sibs[i] == sibs[1..][i - 1];
    }
  }

  /** If every sibling finds its own assigned ports among the stored ones, the same services come out. */
  lemma {:induction false} AssignedFromStored(stored: seq<Service>, sibs: seq<Service>, result: seq<Service>,
                                              occupied: set<int>)
    requires |result| == |sibs|
    requires forall i, later :: 0 <= i < |sibs| ==> FindsOwnPorts(stored, sibs[i], result[i], later)
    ensures var again := AssignedSiblings(stored, sibs, occupied);
      again.Some? && again.value.services == result
    decreases |sibs|
  {
    if sibs != [] {
      assert FindsOwnPorts(stored, sibs[0], result[0], occupied);
      var a := Preserved(sibs[0].ports, OldPorts(stored, sibs[0].key), occupied).value;
      forall i, later | 0 <= i < |sibs[1..]| ensures FindsOwnPorts(stored, sibs[1..][i], result[1..][i], later) {
        assert FindsOwnPorts(stored, sibs[i + 1], result[i + 1], later);
      }
      AssignedFromStored(stored, sibs[1..], result[1..], a.occupied);
      assert result == [result[0]] + result[1..];
    }
  }

  predicate FindsOwnPorts(stored: seq<Service>, sib: Service, result: Service, later: set<int>) {
    var again := Preserved(sib.ports, OldPorts(stored, sib.key), later);
    again.Some? && result == sib.(ports := again.value.ports)
  }

  lemma {:induction false} SiblingsTwice(stored: seq<Service>, sibs: seq<Service>, occupied: set<int>, later: set<int>)
    requires UniqueServices(sibs) && forall i :: 0 <= i < |sibs| ==> UniqueKeys(sibs[i].ports)
    requires AssignedSiblings(stored, sibs, occupied).Some?
    ensures var once := ReconciledSiblings(stored, AssignedSiblings(stored, sibs, occupied).value.services);
      var again := AssignedSiblings(once, sibs, later);
      && UniqueServices(once)
      && again.Some? && ReconciledSiblings(once, again.value.services) == once
  {
    var s := AssignedSiblings(stored, sibs, occupied).value.services;
    var once := ReconciledSiblings(stored, s);
    OnlyPortsAssigned(stored, sibs, occupied);
    forall i | 0 <= i < |sibs| ensures s[i] == sibs[i].(ports := s[i].ports) {
      AssignedAt(stored, sibs, occupied, i, {});
    }
    forall i | 0 <= i < |once|
      ensures once[i].key == sibs[i].key && once[i].ports == s[i].ports
    {
      assert once[i] == ReconciledSibling(stored, s[i]);
    }
    assert UniqueServices(once);
    forall i, later | 0 <= i < |sibs| ensures FindsOwnPorts(once, sibs[i], s[i], later) {
      AssignedAt(stored, sibs, occupied, i, later);
      FindUnique(once, i);
    }
    AssignedFromStored(once, sibs, s, later);
    forall i | 0 <= i < |once| ensures ReconciledSibling(once, s[i]) == once[i] {
      FindUnique(once, i);
      ReconciledAgain(stored, s[i], once[i]);
    }
    assert ReconciledSiblings(once, s) == once;
  }

  lemma ReconciledAgain(stored: seq<Service>, sib: Service, once: Service)
    requires once == ReconciledSibling(stored, sib)
    ensures sib.(env := MergedEnv(once.env, sib.env), image := ReconcileImage(once.image, sib.image)) == once
  {
    var prior := FindService(stored, sib.key);
    if prior.Some? {
      MergeTwice(prior.value.env, sib.env);
      ReconcileTwice(prior.value.image, sib.image);
    } else {
      MergeTwice(sib.env, sib.env);
    }
  }

  lemma NamespacedKeepsKeys(spec: Spec, name: string)
    requires WellKeyed(spec)
    ensures WellKeyed(Namespaced(spec, name))
  {
  }

  /** Rebuilding from the same contract over its own result changes nothing, whatever is occupied by then. */
  lemma {:induction false} RebuiltTwice(name: string, cfg: Component, parsed: Spec, occupied: set<int>, later: set<int>)
    requires WellKeyed(parsed) && Rebuilt(name, cfg, parsed, occupied).Some?
    ensures var once := Rebuilt(name, cfg, parsed, occupied).value;
      Rebuilt(name, once, parsed, later) == Some(once) && UniqueServices(once.siblings)
  {
    var spec := Namespaced(parsed, name);
    NamespacedKeepsKeys(parsed, name);
    var ports := Preserved(spec.ports, cfg.ports, occupied).value;
    PreservedTwice(spec.ports, cfg.ports, occupied, later);
    var once := Rebuilt(name, cfg, parsed, occupied).value;
    SiblingsTwice(cfg.siblings, spec.siblings, ports.occupied, Preserved(spec.ports, once.ports, later).value.occupied);
    ReconcileTwice(cfg.image, spec.image);
  }

  lemma NothingBlanksItself(c: Component)
    requires UniqueServices(c.siblings)
    ensures !Blanks(c, c)
  {
    forall i, k | 0 <= i < |c.siblings| && k in c.siblings[i].env
      ensures !BlanksSibling(c.siblings[i], c, k)
    {
      FindUnique(c.siblings, i);
    }
  }

  lemma {:induction false} NoFieldDiffers(fields: seq<Field>, c: Component)
    ensures ChangedIn(fields, c, c) == []
  {
    if fields != [] {
      NoFieldDiffers(fields[1..], c);
    }
  }

  /** A key is reported as kept exactly when the contract has a placeholder for it and the result a real value. */
  lemma KeptIsVisible(stored: Env, compose: Env)
    ensures KeptKeys(stored, compose)
         == set k | k in compose && EffectivelyEmpty(compose[k]) && !EffectivelyEmpty(MergedEnv(stored, compose)[k])
  {
  }

  lemma {:induction false} NotedAgain(stored: seq<Service>, once: seq<Service>, sib: Service, again: Service, r: Report)
    requires FindService(once, sib.key) == Some(again)
    requires again.env == ReconciledSibling(stored, sib).env && again.image == ReconciledSibling(stored, sib).image
    ensures Noted(once, sib, r) == Noted(stored, sib, r)
  {
    var prior := FindService(stored, sib.key);
    if prior.Some? {
      MergeTwice(prior.value.env, sib.env);
      KeptIsVisible(prior.value.env, sib.env);
      KeptIsVisible(again.env, sib.env);
      ReconcileTwice(prior.value.image, sib.image);
    } else {
      assert KeptKeys(sib.env, sib.env) == {};
    }
  }

  lemma {:induction false} NotedAllAgain(stored: seq<Service>, once: seq<Service>, sibs: seq<Service>,
                                         agains: seq<Service>, r: Report)
    requires |agains| == |sibs|
    requires forall i :: 0 <= i < |sibs| ==> FindService(once, sibs[i].key) == Some(agains[i])
    requires forall i :: 0 <= i < |sibs| ==>
      var t := ReconciledSibling(stored, sibs[i]); agains[i].env == t.env && agains[i].image == t.image
    ensures NotedAll(once, sibs, r) == NotedAll(stored, sibs, r)
    decreases |sibs|
  {
    if sibs != [] {
      NotedAgain(stored, once, sibs[0], agains[0], r);
      NotedAllAgain(stored, once, sibs[1..], agains[1..], Noted(stored, sibs[0], r));
    }
  }

  /** The stored siblings of a rebuilt component are the contract's, reconciled, each found under its key. */
  lemma {:induction false} RebuiltSiblings(name: string, cfg: Component, parsed: Spec, occupied: set<int>)
    requires WellKeyed(parsed) && Rebuilt(name, cfg, parsed, occupied).Some?
    ensures var once, sibs := Rebuilt(name, cfg, parsed, occupied).value.siblings, parsed.siblings;
      && |once| == |sibs|
      && forall i :: 0 <= i < |sibs| ==>
           && FindService(once, sibs[i].key) == Some(once[i])
           && once[i].env == ReconciledSibling(cfg.siblings, sibs[i]).env
           && once[i].image == ReconciledSibling(cfg.siblings, sibs[i]).image
  {
    var spec := Namespaced(parsed, name);
    NamespacedKeepsKeys(parsed, name);
    SiblingsFound(cfg.siblings, spec.siblings, Preserved(spec.ports, cfg.ports, occupied).value.occupied);
    forall i | 0 <= i < |parsed.siblings|
      ensures spec.siblings[i].key == parsed.siblings[i].key
      ensures var r := ReconciledSibling(cfg.siblings, spec.siblings[i]);
        var t := ReconciledSibling(cfg.siblings, parsed.siblings[i]);
        r.env == t.env && r.image == t.image
    {
      assert spec.siblings[i] == parsed.siblings[i].(mounts := RenamedAll(parsed.siblings[i].mounts, name));
      MountsMakeNoDifference(cfg.siblings, parsed.siblings[i], RenamedAll(parsed.siblings[i].mounts, name));
    }
  }

  lemma MountsMakeNoDifference(stored: seq<Service>, sib: Service, mounts: seq<Mount>)
    ensures var r, t := ReconciledSibling(stored, sib.(mounts := mounts)), ReconciledSibling(stored, sib);
      r.env == t.env && r.image == t.image
  {
  }

  lemma {:induction false} SiblingsFound(stored: seq<Service>, sibs: seq<Service>, occupied: set<int>)
    requires UniqueServices(sibs) && forall i :: 0 <= i < |sibs| ==> UniqueKeys(sibs[i].ports)
    requires AssignedSiblings(stored, sibs, occupied).Some?
    ensures var once := ReconciledSiblings(stored, AssignedSiblings(stored, sibs, occupied).value.services);
      && |once| == |sibs|
      && forall i :: 0 <= i < |sibs| ==>
           && FindService(once, sibs[i].key) == Some(once[i])
           && once[i].env == ReconciledSibling(stored, sibs[i]).env
           && once[i].image == ReconciledSibling(stored, sibs[i]).image
  {
    var s := AssignedSiblings(stored, sibs, occupied).value.services;
    var once := ReconciledSiblings(stored, s);
    OnlyPortsAssigned(stored, sibs, occupied);
    SiblingsTwice(stored, sibs, occupied, {});
    forall i | 0 <= i < |sibs|
      ensures FindService(once, sibs[i].key) == Some(once[i])
      ensures once[i].env == ReconciledSibling(stored, sibs[i]).env
      ensures once[i].image == ReconciledSibling(stored, sibs[i]).image
    {
      AssignedAt(stored, sibs, occupied, i, {});
      OneSiblingFound(stored, sibs[i], s, i);
    }
  }

  lemma OneSiblingFound(stored: seq<Service>, sib: Service, s: seq<Service>, i: nat)
    requires i < |s| && s[i] == sib.(ports := s[i].ports) && UniqueServices(ReconciledSiblings(stored, s))
    ensures var once := ReconciledSiblings(stored, s);
      && FindService(once, sib.key) == Some(once[i])
      && once[i].env == ReconciledSibling(stored, sib).env
      && once[i].image == ReconciledSibling(stored, sib).image
  {
    FindUnique(ReconciledSiblings(stored, s), i);
  }

  /** A second refresh reports the same values as kept against the contract. */
  lemma {:induction false} ReportedTwice(name: string, cfg: Component, parsed: Spec, occupied: set<int>)
    requires WellKeyed(parsed) && Rebuilt(name, cfg, parsed, occupied).Some?
    ensures Reported(Rebuilt(name, cfg, parsed, occupied).value, parsed) == Reported(cfg, parsed)
  {
    var once := Rebuilt(name, cfg, parsed, occupied).value;
    RebuiltSiblings(name, cfg, parsed, occupied);
    ReconcileTwice(cfg.image, parsed.image);
    var image := ReconcileImage(cfg.image, parsed.image);
    NotedAllAgain(cfg.siblings, once.siblings, parsed.siblings, once.siblings,
                  Report(if image != parsed.image then Some(image) else None, map[], map[]));
  }

  /**
   * The refresh reaches its fixpoint in one step: repeating a successful refresh from the same
   * contract reports no changed field and the same kept values, raises no conflict and changes
   * nothing that is stored.
   */
  lemma {:induction false} RefreshTwice(plane: Plane, name: string, own: int, spec: Spec, allow: bool, allow': bool)
    requires WellKeyed(spec)
    requires Refreshing(plane, name, own, Parsed(spec), allow).reply.Refreshed?
    ensures var first := Refreshing(plane, name, own, Parsed(spec), allow);
      Refreshing(first.plane, name, own, Parsed(spec), allow')
      == Refresh(first.plane, Refreshed(first.reply.config, [], first.reply.preserved))
  {
    var cfg := plane.components[name];
    var once := Rebuilt(name, cfg, spec, Occupied(plane.components, own, name)).value;
    var after := Stored(plane, name, once, spec);
    RebuiltTwice(name, cfg, spec, Occupied(plane.components, own, name), Occupied(after.components, own, name));
    ReportedTwice(name, cfg, spec, Occupied(plane.components, own, name));
    StoredTwice(plane, name, once, spec);
    SettledRefresh(after, name, own, spec, allow');
  }

  lemma StoredTwice(plane: Plane, name: string, once: Component, spec: Spec)
    ensures var after := Stored(plane, name, once, spec);
      && name in after.components && after.components[name] == once
      && Stored(after, name, once, spec) == after && SchemaChanged(after, name, spec) == []
  {
    var after := Stored(plane, name, once, spec);
    assert after.components[name := once] == after.components;
  }

  /** A refresh that rebuilds what is stored replies with no change and stores what is there. */
  lemma SettledRefresh(plane: Plane, name: string, own: int, spec: Spec, allow: bool)
    requires name in plane.components && plane.components[name].gitUrl != ""
    requires var c := plane.components[name];
      && UniqueServices(c.siblings) && Rebuilt(name, c, spec, Occupied(plane.components, own, name)) == Some(c)
      && Stored(plane, name, c, spec) == plane && SchemaChanged(plane, name, spec) == []
    ensures var c := plane.components[name];
      Refreshing(plane, name, own, Parsed(spec), allow) == Refresh(plane, Refreshed(c, [], Reported(c, spec)))
  {
    var c := plane.components[name];
    NothingBlanksItself(c);
    NoFieldDiffers(CONTRACT_FIELDS, c);
    AcceptedReply(plane, name, own, spec, allow, c);
    assert ChangedIn(CONTRACT_FIELDS, c, c) + SchemaChanged(plane, name, spec) == [];
  }

  /** The reply of a refresh that rebuilds `new_` and blanks nothing. */
  lemma AcceptedReply(plane: Plane, name: string, own: int, spec: Spec, allow: bool, new_: Component)
    requires name in plane.components && plane.components[name].gitUrl != ""
    requires StoredFrom(plane, name, own, spec, allow, new_)
    ensures var c := plane.components[name];
      Refreshing(plane, name, own, Parsed(spec), allow) == Refresh(
        Stored(plane, name, new_, spec),
        Refreshed(new_, ChangedIn(CONTRACT_FIELDS, c, new_) + SchemaChanged(plane, name, spec), Reported(c, spec)))
  {
  }

  // ---- Values are never blanked silently ---------------------------------------------------------

  /** A real value of a stored sibling is still real, if the sibling survives. */
  predicate KeepsSiblingValue(stored: Service, new_: Component, k: string)
    requires k in stored.env
  {
    var s := FindService(new_.siblings, stored.key);
    s.Some? && !EffectivelyEmpty(stored.env[k]) ==> k in s.value.env && !EffectivelyEmpty(s.value.env[k])
  }

  /** An accepted refresh without the override keeps every real environment value real, primary and siblings. */
  lemma {:induction false} AcceptedKeepsValues(plane: Plane, name: string, own: int, spec: Spec)
    requires Refreshing(plane, name, own, Parsed(spec), false).reply.Refreshed?
    ensures var cfg, new_ := plane.components[name], Refreshing(plane, name, own, Parsed(spec), false).reply.config;
      && (forall k :: k in cfg.env && !EffectivelyEmpty(cfg.env[k]) ==> k in new_.env && !EffectivelyEmpty(new_.env[k]))
      && (forall i, k :: 0 <= i < |cfg.siblings| && k in cfg.siblings[i].env ==>
            KeepsSiblingValue(cfg.siblings[i], new_, k))
  {
    var cfg, new_ := plane.components[name], Refreshing(plane, name, own, Parsed(spec), false).reply.config;
    assert EffectivelyEmpty("");
    assert !Blanks(cfg, new_);
    forall k | k in cfg.env ensures !BlanksKey(cfg.env, new_.env, k) {}
    forall i, k | 0 <= i < |cfg.siblings| && k in cfg.siblings[i].env
      ensures !BlanksSibling(cfg.siblings[i], new_, k)
    {
    }
  }

  /** Merging never blanks a sibling's value, so only the primary's environment can cause a conflict. */
  lemma {:induction false} ConflictIsPrimary(plane: Plane, name: string, own: int, spec: Spec)
    requires name in plane.components && UniqueServices(plane.components[name].siblings) && WellKeyed(spec)
    requires plane.components[name].gitUrl != ""
    requires Rebuilt(name, plane.components[name], spec, Occupied(plane.components, own, name)).Some?
    ensures Refreshing(plane, name, own, Parsed(spec), false).reply.Conflict? <==>
      exists k :: k in plane.components[name].env && BlanksKey(plane.components[name].env, spec.env, k)
  {
    var cfg := plane.components[name];
    var new_ := Rebuilt(name, cfg, spec, Occupied(plane.components, own, name)).value;
    assert new_.env == spec.env;
    forall i, k | 0 <= i < |cfg.siblings| && k in cfg.siblings[i].env
      ensures !BlanksSibling(cfg.siblings[i], new_, k)
    {
      FindUnique(cfg.siblings, i);
      SurvivingSibling(cfg, new_, name, spec, Occupied(plane.components, own, name), cfg.siblings[i].key);
    }
  }

  /** The environment of a surviving sibling is the merge of its stored one. */
  lemma {:induction false} SurvivingSibling(cfg: Component, new_: Component, name: string, spec: Spec,
                                            occupied: set<int>, key: string)
    requires Rebuilt(name, cfg, spec, occupied) == Some(new_) && FindService(cfg.siblings, key).Some?
    ensures var s := FindService(new_.siblings, key);
      s.Some? ==> exists compose :: s.value.env == MergedEnv(FindService(cfg.siblings, key).value.env, compose)
  {
    FindIsMember(new_.siblings, key);
    var s := FindService(new_.siblings, key);
    if s.Some? {
      var i :| 0 <= i < |new_.siblings| && new_.siblings[i] == s.value;
      var parsed := Namespaced(spec, name);
      var grown := Preserved(parsed.ports, cfg.ports, occupied).value.occupied;
      var placed := AssignedSiblings(cfg.siblings, parsed.siblings, grown).value;
      assert new_.siblings[i] == ReconciledSibling(cfg.siblings, placed.services[i]);
      assert s.value.env == MergedEnv(FindService(cfg.siblings, key).value.env, placed.services[i].env);
    }
  }

  // ---- Host ports stay apart ---------------------------------------------------------------------

  /** No two components share a host port, and none uses the server's own. */
  ghost predicate PortsApart(components: map<string, Component>, own: int) {
    forall n :: n in components ==> HostPorts(components[n]) !! Occupied(components, own, n)
  }

  lemma {:induction false} AssignedAvoids(stored: seq<Service>, sibs: seq<Service>, occupied: set<int>,
                                          foreign: set<int>)
    requires AssignedSiblings(stored, sibs, occupied).Some? && foreign <= occupied
    requires forall key :: Hosts(OldPorts(stored, key)) !! foreign
    ensures forall i :: 0 <= i < |AssignedSiblings(stored, sibs, occupied).value.services| ==>
      Hosts(AssignedSiblings(stored, sibs, occupied).value.services[i].ports) !! foreign
    decreases |sibs|
  {
    if sibs != [] {
      PreservedAvoids(sibs[0].ports, OldPorts(stored, sibs[0].key), occupied, foreign);
      var a := Preserved(sibs[0].ports, OldPorts(stored, sibs[0].key), occupied).value;
      AssignedAvoids(stored, sibs[1..], a.occupied, foreign);
    }
  }

  lemma {:induction false} RebuiltAvoids(name: string, cfg: Component, parsed: Spec, occupied: set<int>)
    requires Rebuilt(name, cfg, parsed, occupied).Some? && HostPorts(cfg) !! occupied
    ensures HostPorts(Rebuilt(name, cfg, parsed, occupied).value) !! occupied
  {
    var spec := Namespaced(parsed, name);
    var new_ := Rebuilt(name, cfg, parsed, occupied).value;
    PreservedAvoids(spec.ports, cfg.ports, occupied, occupied);
    var after := Preserved(spec.ports, cfg.ports, occupied).value.occupied;
    forall key ensures Hosts(OldPorts(cfg.siblings, key)) !! occupied {
      OldPortsInside(cfg, key);
    }
    AssignedAvoids(cfg.siblings, spec.siblings, after, occupied);
    var services := AssignedSiblings(cfg.siblings, spec.siblings, after).value.services;
    forall i | 0 <= i < |new_.siblings| ensures Hosts(new_.siblings[i].ports) !! occupied {
      assert new_.siblings[i] == ReconciledSibling(cfg.siblings, services[i]);
      assert new_.siblings[i].ports == services[i].ports;
    }
  }

  lemma OldPortsInside(cfg: Component, key: string)
    ensures Hosts(OldPorts(cfg.siblings, key)) <= HostPorts(cfg)
  {
    FindIsMember(cfg.siblings, key);
    var prior := FindService(cfg.siblings, key);
    if prior.Some? {
      var i :| 0 <= i < |cfg.siblings| && cfg.siblings[i] == prior.value;
      forall p | p in Hosts(OldPorts(cfg.siblings, key)) ensures p in HostPorts(cfg) {
        assert p in Hosts(cfg.siblings[i].ports);
      }
    }
  }

  /** What a refresh does to the components: nothing, or the rebuilt one is stored. */
  lemma RefreshStores(plane: Plane, name: string, own: int, fetched: Fetched, allow: bool)
    ensures var t := Refreshing(plane, name, own, fetched, allow);
      if t.reply.Refreshed? then
        && name in plane.components && fetched.Parsed?
        && t.plane.components == plane.components[name := t.reply.config]
        && StoredFrom(plane, name, own, fetched.spec, allow, t.reply.config)
      else t.plane == plane
  {
  }

  /** The refresh of a component may store `new_`. */
  predicate StoredFrom(plane: Plane, name: string, own: int, spec: Spec, allow: bool, new_: Component)
    requires name in plane.components
  {
    && Rebuilt(name, plane.components[name], spec, Occupied(plane.components, own, name)) == Some(new_)
    && (allow || !Blanks(plane.components[name], new_))
  }

  lemma {:induction false} StoredAvoids(plane: Plane, name: string, own: int, spec: Spec, allow: bool, new_: Component)
    requires PortsApart(plane.components, own) && name in plane.components
    requires StoredFrom(plane, name, own, spec, allow, new_)
    ensures PortsApart(plane.components[name := new_], own)
  {
    RebuiltAvoids(name, plane.components[name], spec, Occupied(plane.components, own, name));
    ReplacedApart(plane.components, name, own, new_);
  }

  lemma ReplacedApart(before: map<string, Component>, name: string, own: int, new_: Component)
    requires PortsApart(before, own) && name in before && HostPorts(new_) !! Occupied(before, own, name)
    ensures PortsApart(before[name := new_], own)
  {
    var after := before[name := new_];
    forall n | n in after ensures HostPorts(after[n]) !! Occupied(after, own, n) {
      ApartAfter(before, name, own, new_, n);
    }
  }

  /** One refresh, successful or not, keeps the host ports of all components apart. */
  lemma {:induction false} RefreshKeepsPortsApart(plane: Plane, name: string, own: int, fetched: Fetched, allow: bool)
    requires PortsApart(plane.components, own)
    ensures PortsApart(Refreshing(plane, name, own, fetched, allow).plane.components, own)
  {
    var t := Refreshing(plane, name, own, fetched, allow);
    RefreshStores(plane, name, own, fetched, allow);
    if t.reply.Refreshed? {
      StoredAvoids(plane, name, own, fetched.spec, allow, t.reply.config);
    }
  }

  lemma ApartAfter(before: map<string, Component>, name: string, own: int, new_: Component, n: string)
    requires PortsApart(before, own) && name in before && n in before
    requires HostPorts(new_) !! Occupied(before, own, name)
    ensures var after := before[name := new_]; HostPorts(after[n]) !! Occupied(after, own, n)
  {
    var after := before[name := new_];
    if n == name {
      OccupiedIgnores(before, own, name, new_);
    } else {
      assert HostPorts(before[n]) <= Occupied(before, own, name);
      OccupiedGrows(before, own, name, new_, n);
    }
  }

  lemma OccupiedIgnores(components: map<string, Component>, own: int, name: string, new_: Component)
    ensures Occupied(components[name := new_], own, name) == Occupied(components, own, name)
  {
    var after := components[name := new_];
    forall p ensures p in Occupied(after, own, name) <==> p in Occupied(components, own, name) {
      if n :| n in components && n != name && p in HostPorts(components[n]) {
        assert n in after && p in HostPorts(after[n]);
      }
    }
  }

  lemma OccupiedGrows(components: map<string, Component>, own: int, name: string, new_: Component, n: string)
    ensures Occupied(components[name := new_], own, n) <= Occupied(components, own, n) + HostPorts(new_)
  {
  }

  datatype Request = Request(name: string, fetched: Fetched, allow: bool)

  function RefreshAll(plane: Plane, own: int, requests: seq<Request>): Plane
    decreases |requests|
  {
    if requests == [] then plane else
    var r := requests[0];
    RefreshAll(Refreshing(plane, r.name, own, r.fetched, r.allow).plane, own, requests[1..])
  }

  /** Every sequence of refreshes keeps the host ports of all components, and the server's own, apart. */
  lemma {:induction false} PortsStayApart(plane: Plane, own: int, requests: seq<Request>)
    requires PortsApart(plane.components, own)
    ensures PortsApart(RefreshAll(plane, own, requests).components, own)
    decreases |requests|
  {
    if requests != [] {
      RefreshKeepsPortsApart(plane, requests[0].name, own, requests[0].fetched, requests[0].allow);
      var next := Refreshing(plane, requests[0].name, own, requests[0].fetched, requests[0].allow).plane;
      PortsStayApart(next, own, requests[1..]);
    }
  }

  // ---- What survives any number of refreshes -----------------------------------------------------

  /** A key of the primary's environment with a real value. */
  predicate RealValue(c: Component, k: string) {
    k in c.env && !EffectivelyEmpty(c.env[k])
  }

  /** Who the component is, what the operator granted and what was set to a real value is still there. */
  predicate CarriedOver(a: Component, b: Component) {
    && b.gitUrl == a.gitUrl && b.repoId == a.repoId && b.autoUpdate == a.autoUpdate
    && b.allowChatAccess == a.allowChatAccess && (a.claudeMount ==> b.claudeMount)
    && (a.memswapLimit.GetOr("") != "" ==> b.memswapLimit.GetOr("") != "")
    && forall k :: k in a.env && RealValue(a, k) ==> RealValue(b, k)
  }

  lemma RebuiltCarriesOver(name: string, cfg: Component, spec: Spec, occupied: set<int>)
    requires Rebuilt(name, cfg, spec, occupied).Some? && !Blanks(cfg, Rebuilt(name, cfg, spec, occupied).value)
    ensures CarriedOver(cfg, Rebuilt(name, cfg, spec, occupied).value)
  {
    var new_ := Rebuilt(name, cfg, spec, occupied).value;
    forall k | k in cfg.env && RealValue(cfg, k) ensures RealValue(new_, k) {
      assert !BlanksKey(cfg.env, new_.env, k);
    }
  }

  lemma {:induction false} OneRefreshCarriesOver(plane: Plane, own: int, r: Request, n: string)
    requires n in plane.components && !r.allow
    ensures var after := Refreshing(plane, r.name, own, r.fetched, false).plane;
      n in after.components && CarriedOver(plane.components[n], after.components[n])
  {
    RefreshStores(plane, r.name, own, r.fetched, false);
    if n == r.name && Refreshing(plane, n, own, r.fetched, false).reply.Refreshed? {
      RebuiltCarriesOver(n, plane.components[n], r.fetched.spec, Occupied(plane.components, own, n));
    }
  }

  /** No sequence of refreshes without the override takes any of it away. */
  lemma {:induction false} RefreshesCarryOver(plane: Plane, own: int, requests: seq<Request>, n: string)
    requires n in plane.components && forall i :: 0 <= i < |requests| ==> !requests[i].allow
    ensures var after := RefreshAll(plane, own, requests);
      n in after.components && CarriedOver(plane.components[n], after.components[n])
    decreases |requests|
  {
    if requests != [] {
      OneRefreshCarriesOver(plane, own, requests[0], n);
      var next := Refreshing(plane, requests[0].name, own, requests[0].fetched, false).plane;
      RefreshesCarryOver(next, own, requests[1..], n);
    }
  }

  /**
   * A refresh reports no change exactly when the configuration schema is the stored one, or absent,
   * and the configuration is as before except for what is never reported: the chat fields, which
   * come from the contract, and the operator's own, which go back to their defaults.
   */
  lemma {:induction false} UnreportedChanges(plane: Plane, name: string, own: int, spec: Spec, allow: bool)
    requires Refreshing(plane, name, own, Parsed(spec), allow).reply.Refreshed?
    requires plane.components[name].id == name
    ensures var cfg, reply := plane.components[name], Refreshing(plane, name, own, Parsed(spec), allow).reply;
      reply.changed == [] <==>
        && reply.config == cfg.(chat := spec.chat, operator := UNSET)
        && (spec.schema.Some? ==> name in plane.templates && plane.templates[name] == spec.schema.value)
  {
    var cfg, new_ := plane.components[name], Refreshing(plane, name, own, Parsed(spec), allow).reply.config;
    if ChangedIn(CONTRACT_FIELDS, cfg, new_) == [] {
      NothingChanged(CONTRACT_FIELDS, cfg, new_);
      forall f: Field ensures SameField(cfg, new_, f) {
        EveryFieldListed(f);
      }
      AllFieldsSame(cfg, new_);
    } else if new_ == cfg.(chat := spec.chat, operator := UNSET) {
      NoReportedFieldDiffers(CONTRACT_FIELDS, cfg, new_);
    }
  }

  lemma {:induction false} NothingChanged(fields: seq<Field>, a: Component, b: Component)
    requires ChangedIn(fields, a, b) == []
    ensures forall i :: 0 <= i < |fields| ==> SameField(a, b, fields[i])
  {
    if fields != [] {
      NothingChanged(fields[1..], a, b);
      assert forall i :: 1 <= i < |fields| ==> fields[i] == fields[1..][i - 1];
    }
  }

  lemma {:induction false} NoReportedFieldDiffers(fields: seq<Field>, a: Component, b: Component)
    requires b == a.(chat := b.chat, operator := b.operator)
    ensures ChangedIn(fields, a, b) == []
  {
    if fields != [] {
      NoReportedFieldDiffers(fields[1..], a, b);
    }
  }

  lemma EveryFieldListed(f: Field)
    ensures f == ConfigSchema || exists i :: 0 <= i < |CONTRACT_FIELDS| && CONTRACT_FIELDS[i] == f
  {
    assert f == ConfigSchema || f in CONTRACT_FIELDS;
  }

  /** But for the chat and the operator fields, a configuration is its reported, identifying and carried-over ones. */
  lemma AllFieldsSame(a: Component, b: Component)
    requires forall f: Field :: SameField(a, b, f)
    requires a.id == b.id && a.gitUrl == b.gitUrl && a.repoId == b.repoId && a.autoUpdate == b.autoUpdate
    ensures b == a.(chat := b.chat, operator := b.operator)
  {
    assert SameField(a, b, Image) && SameField(a, b, ContainerName) && SameField(a, b, Ports);
    assert SameField(a, b, MountsField) && SameField(a, b, EnvField) && SameField(a, b, OtherFields);
    assert SameField(a, b, MemLimit) && SameField(a, b, MemswapLimit) && SameField(a, b, ClaudeMount);
    assert SameField(a, b, ClaudeMountPath) && SameField(a, b, NamedVolumes) && SameField(a, b, SiblingsField);
    assert SameField(a, b, ConfigVolume) && SameField(a, b, AllowChatAccess);
  }

  /**
   * What only the operator sets is not carried over: a refresh keeps it if and only if all of it is
   * at its default, and each of its fields if and only if that one is.
   */
  lemma {:induction false} RefreshResetsOperatorFields(plane: Plane, name: string, own: int, spec: Spec, allow: bool)
    requires Refreshing(plane, name, own, Parsed(spec), allow).reply.Refreshed?
    ensures var cfg, new_ := plane.components[name], Refreshing(plane, name, own, Parsed(spec), allow).reply.config;
      && (new_.operator == cfg.operator <==> cfg.operator == UNSET)
      && (new_.operator.routable == cfg.operator.routable <==> cfg.operator.routable)
      && (new_.operator.isVirtual == cfg.operator.isVirtual <==> !cfg.operator.isVirtual)
      && (new_.operator.chatBaseUrl == cfg.operator.chatBaseUrl <==> cfg.operator.chatBaseUrl.None?)
      && (new_.operator.authType == cfg.operator.authType <==> cfg.operator.authType == "")
      && (new_.operator.authHeaderName == cfg.operator.authHeaderName <==> cfg.operator.authHeaderName == "")
      && (new_.operator.consumedScopes == cfg.operator.consumedScopes <==> cfg.operator.consumedScopes == [])
      && (new_.operator.targetDisk == cfg.operator.targetDisk <==> cfg.operator.targetDisk == "")
      && (new_.operator.remoteHost == cfg.operator.remoteHost <==> cfg.operator.remoteHost == "")
      && new_.repoId == cfg.repoId && new_.autoUpdate == cfg.autoUpdate && new_.gitUrl == cfg.gitUrl
  {
  }
}
