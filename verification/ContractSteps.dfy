/** The contract refresh with its loops and its writes to the stores. */
module ContractSteps {
  import opened Wrappers
  import opened PortAssignment
  import opened ImageReferences
  import opened ContractRefresh
  import opened ContractGuarantees

  method CollectOccupiedHostPorts(components: map<string, Component>, order: seq<string>, own: int, exclude: string)
    returns (occupied: set<int>)
    requires forall n :: n in order <==> n in components
    ensures occupied == Occupied(components, own, exclude)
  {
    occupied := {own};
    for i := 0 to |order|
      invariant occupied == {own} + set n, p | n in order[..i] && n != exclude && p in HostPorts(components[n]) :: p
    {
      if order[i] != exclude {
        var ports := ComponentPorts(components[order[i]]);
        occupied := occupied + ports;
      }
    }
    assert order[..|order|] == order;
  }

  method ComponentPorts(c: Component) returns (ports: set<int>)
    ensures ports == HostPorts(c)
  {
    ports := PortSet(c.ports);
    for i := 0 to |c.siblings|
      invariant ports == Hosts(c.ports) + set j, p | 0 <= j < i && p in Hosts(c.siblings[j].ports) :: p
    {
      var more := PortSet(c.siblings[i].ports);
      ports := ports + more;
    }
  }

  method PortSet(ports: seq<Port>) returns (hosts: set<int>)
    ensures hosts == Hosts(ports)
  {
    hosts := {};
    for i := 0 to |ports|
      invariant hosts == set j | 0 <= j < i :: ports[j].host
    {
      hosts := hosts + {ports[i].host};
    }
  }

  /** The merged environment, and the stored keys kept against an empty compose value. */
  method MergeSiblingEnv(stored: Env, compose: Env) returns (merged: Env, preserved: set<string>)
    ensures merged == MergedEnv(stored, compose)
    ensures forall k :: k in preserved <==> k in compose && KeptAgainstEmpty(stored, compose, k)
  {
    merged, preserved := stored, {};
    ghost var goal := MergedEnv(stored, compose);
    var todo := compose.Keys;
    while todo != {}
      invariant todo <= compose.Keys
      invariant merged.Keys == stored.Keys + (compose.Keys - todo)
      invariant forall k :: k in merged ==> merged[k] == if k in todo then stored[k] else goal[k]
      invariant forall k :: k in preserved <==> k in compose && k !in todo && KeptAgainstEmpty(stored, compose, k)
      decreases todo
    {
      var key :| key in todo;
      todo := todo - {key};
      if KeptAgainstEmpty(stored, compose, key) {
        preserved := preserved + {key};
      }
      merged := MergeKey(merged, stored, compose, key);
    }
  }

  method MergeKey(start: Env, ghost stored: Env, compose: Env, key: string) returns (merged: Env)
    requires key in compose && (key in start <==> key in stored) && (key in stored ==> start[key] == stored[key])
    ensures merged == start[key := MergedEnv(stored, compose)[key]]
  {
    merged := start;
    if !EffectivelyEmpty(compose[key]) || key !in merged {
      merged := merged[key := compose[key]];
    }
  }

  method BlankedKeys(stored: Env, new_: Env) returns (blanked: seq<string>)
    ensures forall k :: k in blanked <==> BlanksKey(stored, new_, k)
  {
    blanked := [];
    var todo := stored.Keys;
    while todo != {}
      invariant todo <= stored.Keys
      invariant forall k :: k in blanked <==> k !in todo && BlanksKey(stored, new_, k)
      decreases todo
    {
      var key :| key in todo;
      todo := todo - {key};
      if !EffectivelyEmpty(stored[key]) && EffectivelyEmpty(if key in new_ then new_[key] else "") {
        blanked := blanked + [key];
      }
    }
  }

  /** The label of a blanked value: its key, behind the service key for a surviving sibling's. */
  predicate Labels(stored: Component, new_: Component, upTo: nat, tag: string)
    requires upTo <= |stored.siblings|
  {
    || BlanksKey(stored.env, new_.env, tag)
    || exists i | 0 <= i < upTo :: LabelsSibling(stored.siblings[i], new_, tag)
  }

  predicate LabelsSibling(sib: Service, new_: Component, tag: string) {
    exists k | k in sib.env :: BlanksSibling(sib, new_, k) && tag == sib.key + "." + k
  }

  /** The labels of exactly the blanked values; none when nothing is blanked. */
  method DetectBlankedEnv(stored: Component, new_: Component) returns (blanked: seq<string>)
    ensures forall l :: l in blanked <==> Labels(stored, new_, |stored.siblings|, l)
    ensures blanked != [] <==> Blanks(stored, new_)
  {
    blanked := BlankedKeys(stored.env, new_.env);
    for i := 0 to |stored.siblings|
      invariant forall l :: l in blanked <==> Labels(stored, new_, i, l)
    {
      var labels := BlankedSiblingLabels(stored.siblings[i], new_);
      blanked := blanked + labels;
    }
    AnyLabel(stored, new_);
    if blanked != [] {
      assert Labels(stored, new_, |stored.siblings|, blanked[0]);
    }
  }

  /** Something is labelled exactly when something is blanked. */
  lemma AnyLabel(stored: Component, new_: Component)
    ensures (exists l :: Labels(stored, new_, |stored.siblings|, l)) <==> Blanks(stored, new_)
  {
    if k :| k in stored.env && BlanksKey(stored.env, new_.env, k) {
      assert Labels(stored, new_, |stored.siblings|, k);
    } else if i, k :| && 0 <= i < |stored.siblings| && k in stored.siblings[i].env
                      && BlanksSibling(stored.siblings[i], new_, k) {
      assert LabelsSibling(stored.siblings[i], new_, stored.siblings[i].key + "." + k);
      assert Labels(stored, new_, |stored.siblings|, stored.siblings[i].key + "." + k);
    }
  }

  method BlankedSiblingLabels(sib: Service, new_: Component) returns (labels: seq<string>)
    ensures forall l :: l in labels <==> LabelsSibling(sib, new_, l)
  {
    labels := [];
    var survivor := FindService(new_.siblings, sib.key);
    if survivor.None? { return; }
    var keys := BlankedKeys(sib.env, survivor.value.env);
    for j := 0 to |keys|
      invariant forall l :: l in labels <==> exists m :: 0 <= m < j && l == sib.key + "." + keys[m]
    {
      labels := labels + [sib.key + "." + keys[j]];
    }
    forall l ensures l in labels <==> LabelsSibling(sib, new_, l) {
      if LabelsSibling(sib, new_, l) {
        var k :| k in sib.env && BlanksSibling(sib, new_, k) && l == sib.key + "." + k;
        assert k in keys;
      }
      if m :| 0 <= m < |keys| && l == sib.key + "." + keys[m] {
        assert keys[m] in keys && BlanksSibling(sib, new_, keys[m]);
      }
    }
  }

  method DiffContractFields(fields: seq<Field>, a: Component, b: Component) returns (changed: seq<Field>)
    ensures changed == ChangedIn(fields, a, b)
  {
    changed := [];
    for i := 0 to |fields|
      invariant ChangedIn(fields, a, b) == changed + ChangedIn(fields[i..], a, b)
    {
      assert fields[i..][0] == fields[i] && fields[i..][1..] == fields[i + 1..];
      if !SameField(a, b, fields[i]) {
        changed := changed + [fields[i]];
      }
    }
  }

  /** The parser's fresh port objects for one service. */
  method MakePorts(news: seq<Port>) returns (objects: seq<PortMapping>)
    ensures Distinct(objects) && fresh(objects) && Values(objects) == news
  {
    objects := [];
    for i := 0 to |news|
      invariant |objects| == i && Distinct(objects) && fresh(objects)
      invariant forall j :: 0 <= j < i ==> objects[j].Value() == news[j]
    {
      var pm := new PortMapping(news[i]);
      objects := objects + [pm];
    }
  }

  method ReadPorts(objects: seq<PortMapping>) returns (ports: seq<Port>)
    ensures ports == Values(objects)
  {
    ports := [];
    for i := 0 to |objects|
      invariant |ports| == i && forall j :: 0 <= j < i ==> ports[j] == objects[j].Value()
    {
      ports := ports + [objects[i].Value()];
    }
  }

  method AssignPorts(news: seq<Port>, olds: seq<Port>, occupied: set<int>) returns (a: Option<Assignment>)
    ensures a == Preserved(news, olds, occupied)
  {
    var objects := MakePorts(news);
    var grown := PreserveHostPortAssignments(objects, olds, occupied);
    if grown.None? { return None; }
    var ports := ReadPorts(objects);
    return Some(Assignment(ports, grown.value));
  }

  function Behind(done: seq<Service>, rest: Option<Siblings>): Option<Siblings> {
    if rest.None? then None else Some(Siblings(done + rest.value.services, rest.value.occupied))
  }

  lemma BehindOne(done: seq<Service>, s: Service, rest: Option<Siblings>)
    ensures Behind(done + [s], rest) == Behind(done, Behind([s], rest))
  {
    if rest.Some? { assert done + [s] + rest.value.services == done + ([s] + rest.value.services); }
  }

  lemma BehindNothing(rest: Option<Siblings>)
    ensures Behind([], rest) == rest
  {
    if rest.Some? { assert [] + rest.value.services == rest.value.services; }
  }

  method AssignSiblingPorts(stored: seq<Service>, sibs: seq<Service>, occupied: set<int>) returns (r: Option<Siblings>)
    ensures r == AssignedSiblings(stored, sibs, occupied)
  {
    var done: seq<Service> := [];
    var occ := occupied;
    BehindNothing(AssignedSiblings(stored, sibs, occ));
    assert sibs[0..] == sibs;
    for i := 0 to |sibs|
      invariant AssignedSiblings(stored, sibs, occupied) == Behind(done, AssignedSiblings(stored, sibs[i..], occ))
    {
      var sib := sibs[i];
      assert sibs[i..][0] == sib && sibs[i..][1..] == sibs[i + 1..];
      var a := AssignPorts(sib.ports, OldPorts(stored, sib.key), occ);
      if a.None? { return None; }
      var placed := sib.(ports := a.value.ports);
      BehindOne(done, placed, AssignedSiblings(stored, sibs[i + 1..], a.value.occupied));
      occ := a.value.occupied;
      done := done + [placed];
    }
    assert sibs[|sibs|..] == [] && done + [] == done;
    return Some(Siblings(done, occ));
  }

  /** The reconciled siblings, and the report with what was kept for each. */
  method ReconcileSiblings(stored: seq<Service>, sibs: seq<Service>, start: Report)
    returns (reconciled: seq<Service>, report: Report)
    ensures reconciled == ReconciledSiblings(stored, sibs) && report == NotedAll(stored, sibs, start)
  {
    reconciled, report := [], start;
    assert sibs[0..] == sibs;
    for i := 0 to |sibs|
      invariant |reconciled| == i && forall j :: 0 <= j < i ==> reconciled[j] == ReconciledSibling(stored, sibs[j])
      invariant NotedAll(stored, sibs[i..], report) == NotedAll(stored, sibs, start)
    {
      var sib: Service;
      assert sibs[i..][0] == sibs[i] && sibs[i..][1..] == sibs[i + 1..];
      sib, report := ReconcileSibling(stored, sibs[i], report);
      reconciled := reconciled + [sib];
    }
  }

  method ReconcileSibling(stored: seq<Service>, sib: Service, start: Report)
    returns (reconciled: Service, report: Report)
    ensures reconciled == ReconciledSibling(stored, sib) && report == Noted(stored, sib, start)
  {
    report := start;
    var prior := FindService(stored, sib.key);
    if prior.None? { return sib, report; }
    var merged, keys := MergeSiblingEnv(prior.value.env, sib.env);
    assert keys == KeptKeys(prior.value.env, sib.env);
    var image := ReconcileImage(prior.value.image, sib.image);
    reconciled := sib.(env := merged, image := image);
    if keys != {} {
      report := report.(siblingEnv := report.siblingEnv[sib.key := keys]);
    }
    if image != sib.image {
      report := report.(siblingImages := report.siblingImages[sib.key := image]);
    }
  }

  /** A report depends on the key, the environment and the image of each sibling only. */
  lemma {:induction false} SameReport(stored: seq<Service>, a: seq<Service>, b: seq<Service>, r: Report)
    requires |a| == |b|
    requires forall i :: 0 <= i < |a| ==> a[i].key == b[i].key && a[i].env == b[i].env && a[i].image == b[i].image
    ensures NotedAll(stored, a, r) == NotedAll(stored, b, r)
    decreases |a|
  {
    if a != [] {
      SameReport(stored, a[1..], b[1..], Noted(stored, a[0], r));
    }
  }

  method Rebuild(name: string, cfg: Component, parsed: Spec, occupied: set<int>)
    returns (config: Option<Component>, report: Report)
    ensures config == Rebuilt(name, cfg, parsed, occupied)
    ensures config.Some? ==> report == Reported(cfg, parsed)
  {
    var spec := Namespaced(parsed, name);
    report := Report(None, map[], map[]);
    var ports := AssignPorts(spec.ports, cfg.ports, occupied);
    if ports.None? { return None, report; }
    var sibs := AssignSiblingPorts(cfg.siblings, spec.siblings, ports.value.occupied);
    if sibs.None? { return None, report; }
    var image := ReconcileImage(cfg.image, spec.image);
    if image != spec.image { report := report.(image := Some(image)); }
    ghost var start := report;
    var reconciled: seq<Service>;
    reconciled, report := ReconcileSiblings(cfg.siblings, sibs.value.services, report);
    OnlyPortsAssigned(cfg.siblings, spec.siblings, ports.value.occupied);
    SameReport(cfg.siblings, sibs.value.services, parsed.siblings, start);
    config := Some(Built(name, cfg, spec.(ports := ports.value.ports, image := image, siblings := reconciled)));
  }

  class DeployPlane {
    var components: map<string, Component>
    var templates: map<string, string>
    var recordImages: map<string, string>

    function State(): Plane
      reads this
    {
      Plane(components, templates, recordImages)
    }

    /** `order` is the iteration order of the component store. */
    method RefreshComponentContract(name: string, order: seq<string>, own: int, fetched: Fetched, allowEnvClear: bool)
      returns (reply: Reply)
      requires forall n :: n in order <==> n in components
      modifies this
      ensures Refresh(State(), reply) == Refreshing(old(State()), name, own, fetched, allowEnvClear)
    {
      if name !in components { return NotFound; }
      var cfg := components[name];
      if cfg.gitUrl == "" { return BadRequest; }
      if fetched.FetchFailed? || fetched.Unparsable? { return Unprocessable; }
      if fetched.NoCompose? { return NotFound; }
      var occupied := CollectOccupiedHostPorts(components, order, own, name);
      var config, report := Rebuild(name, cfg, fetched.spec, occupied);
      if config.None? { return PortsExhausted; }
      var blanked := DetectBlankedEnv(cfg, config.value);
      if blanked != [] && !allowEnvClear { return Conflict; }
      var changed := DiffContractFields(CONTRACT_FIELDS, cfg, config.value);
      var schemaChanged := Store(name, config.value, fetched.spec);
      return Refreshed(config.value, changed + schemaChanged, report);
    }

    method Store(name: string, config: Component, spec: Spec) returns (changed: seq<Field>)
      modifies this
      ensures State() == Stored(old(State()), name, config, spec)
      ensures changed == SchemaChanged(old(State()), name, spec)
    {
      components := components[name := config];
      if config.image != "" && name in recordImages && recordImages[name] != config.image {
        recordImages := recordImages[name := config.image];
      }
      changed := [];
      if spec.schema.Some? {
        if !(name in templates && templates[name] == spec.schema.value) {
          changed := [ConfigSchema];
        }
        templates := templates[name := spec.schema.value];
      }
    }
  }
}
