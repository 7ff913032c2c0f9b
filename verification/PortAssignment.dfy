/** Host ports: what is occupied, how a fresh mapping keeps or gets its port, and the free-port search. */
module PortAssignment {
  import opened Wrappers

  datatype Port = Port(host: int, container: int, protocol: string)

  class PortMapping {
    var host: int
    const container: int
    const protocol: string

    constructor (p: Port)
      ensures Value() == p
    {
      host, container, protocol := p.host, p.container, p.protocol;
    }

    function Value(): Port
      reads this
    {
      Port(host, container, protocol)
    }
  }

  function Values(ports: seq<PortMapping>): (vs: seq<Port>)
    reads ports
    ensures |vs| == |ports| && forall i :: 0 <= i < |ports| ==> vs[i] == ports[i].Value()
  {
    if ports == [] then [] else [ports[0].Value()] + Values(ports[1..])
  }

  // ---- The free-port search ----------------------------------------------------------------------

  const START := 10000
  const END := 20000

  /** `None` is the RuntimeError of an exhausted range. */
  method FindFreeHostPort(occupied: set<int>, start: int, end: int) returns (port: Option<int>)
    ensures port.Some? ==> start <= port.value < end && port.value !in occupied
    ensures port.Some? ==> forall p :: start <= p < port.value ==> p in occupied
    ensures port.None? ==> forall p :: start <= p < end ==> p in occupied
    ensures port == LowestFree(occupied, start, end)
  {
    var p := start;
    while p < end
      invariant start <= p && forall q :: start <= q < p ==> q in occupied
      invariant LowestFree(occupied, start, end) == LowestFree(occupied, p, end)
      decreases end - p
    {
      if p !in occupied { return Some(p); }
      p := p + 1;
    }
    return None;
  }

  function LowestFree(occupied: set<int>, start: int, end: int): (port: Option<int>)
    ensures port.Some? ==> start <= port.value < end && port.value !in occupied
    ensures port.Some? ==> forall p :: start <= p < port.value ==> p in occupied
    ensures port.None? ==> forall p :: start <= p < end ==> p in occupied
    decreases end - start
  {
    if start >= end then None
    else if start !in occupied then Some(start)
    else LowestFree(occupied, start + 1, end)
  }

  function Range(a: int, b: int): (r: set<int>)
    ensures forall p :: p in r <==> a <= p < b
    ensures |r| == if a <= b then b - a else 0
    decreases b - a
  {
    if a >= b then {} else Range(a, b - 1) + {b - 1}
  }

  lemma SubsetSize(a: set<int>, b: set<int>)
    requires a <= b
    ensures |a| <= |b|
  {
    assert b * a == a;
    assert |b - a| == |b| - |b * a|;
  }

  /** The search fails exactly when every port of the range is occupied, so never while fewer are. */
  lemma SearchFailsOnlyWhenFull(occupied: set<int>, start: int, end: int)
    requires start <= end
    ensures LowestFree(occupied, start, end).None? <==> |occupied * Range(start, end)| >= end - start
  {
    var range := Range(start, end);
    if LowestFree(occupied, start, end).None? {
      assert occupied * range == range;
    } else {
      var free := LowestFree(occupied, start, end).value;
      assert |range - {free}| == |range| - |range * {free}| && range * {free} == {free};
      SubsetSize(occupied * range, range - {free});
    }
  }

  // ---- Carrying assignments over -----------------------------------------------------------------

  /** The host port of the last old mapping with the same container port and protocol. */
  function Inherited(olds: seq<Port>, container: int, protocol: string): Option<int> {
    if olds == [] then None else
    var last := olds[|olds| - 1];
    if last.container == container && last.protocol == protocol then Some(last.host)
    else Inherited(olds[..|olds| - 1], container, protocol)
  }

  /** The port of one fresh mapping; `None` when the range is exhausted. */
  function Assigned(p: Port, olds: seq<Port>, occupied: set<int>): Option<int> {
    var inherited := Inherited(olds, p.container, p.protocol);
    if inherited.Some? then inherited
    else if p.host in occupied then LowestFree(occupied, START, END)
    else Some(p.host)
  }

  datatype Assignment = Assignment(ports: seq<Port>, occupied: set<int>)

  function Preserved(news: seq<Port>, olds: seq<Port>, occupied: set<int>): Option<Assignment>
    decreases |news|
  {
    if news == [] then Some(Assignment([], occupied)) else
    var host := Assigned(news[0], olds, occupied);
    if host.None? then None else
    var rest := Preserved(news[1..], olds, occupied + {host.value});
    if rest.None? then None
    else Some(Assignment([news[0].(host := host.value)] + rest.value.ports, rest.value.occupied))
  }

  method PreviousHosts(olds: seq<Port>) returns (previous: map<(int, string), int>)
    ensures forall c, p :: (c, p) in previous <==> Inherited(olds, c, p).Some?
    ensures forall c, p :: (c, p) in previous ==> Inherited(olds, c, p) == Some(previous[(c, p)])
  {
    previous := map[];
    for i := 0 to |olds|
      invariant forall c, p :: (c, p) in previous <==> Inherited(olds[..i], c, p).Some?
      invariant forall c, p :: (c, p) in previous ==> Inherited(olds[..i], c, p) == Some(previous[(c, p)])
    {
      assert olds[..i + 1][..i] == olds[..i];
      previous := previous[(olds[i].container, olds[i].protocol) := olds[i].host];
    }
    assert olds[..|olds|] == olds;
  }

  predicate Distinct(ports: seq<PortMapping>) {
    forall i, j :: 0 <= i < j < |ports| ==> ports[i] != ports[j]
  }

  /** Mutates `ports[i].host`; the grown occupied set is returned, or `None` when the search raises. */
  method PreserveHostPortAssignments(ports: seq<PortMapping>, olds: seq<Port>, occupied: set<int>)
    returns (grown: Option<set<int>>)
    requires Distinct(ports)
    modifies ports
    ensures var p := Preserved(old(Values(ports)), olds, occupied);
      && grown.Some? == p.Some?
      && (grown.Some? ==> Values(ports) == p.value.ports && grown.value == p.value.occupied)
  {
    var previous := PreviousHosts(olds);
    var occ := occupied;
    ghost var start := Values(ports);
    ghost var done: seq<Port> := [];
    PrependNothing(Preserved(start, olds, occ));
    assert start[0..] == start;
    for i := 0 to |ports|
      invariant |done| == i && Written(ports, start, done)
      invariant Preserved(start, olds, occupied) == Prepended(done, Preserved(start[i..], olds, occ))
    {
      NextAssigned(start, i, olds, occ, done);
      var host := AssignHost(ports, i, start, done, previous, olds, occ);
      if host.None? { return None; }
      occ := occ + {host.value};
      done := done + [start[i].(host := host.value)];
    }
    assert start[|ports|..] == [];
    assert Values(ports) == done;
    return Some(occ);
  }

  /** The mappings are those of `start`, with the first ones replaced by `done`. */
  ghost predicate Written(ports: seq<PortMapping>, start: seq<Port>, done: seq<Port>)
    reads ports
  {
    && |ports| == |start| && |done| <= |start|
    && forall j :: 0 <= j < |ports| ==> ports[j].Value() == if j < |done| then done[j] else start[j]
  }

  /** One turn of the loop: the host port of one mapping, written into it. */
  method AssignHost(ports: seq<PortMapping>, i: nat, ghost start: seq<Port>, ghost done: seq<Port>,
                    previous: map<(int, string), int>, ghost olds: seq<Port>, occupied: set<int>)
    returns (host: Option<int>)
    requires Distinct(ports) && Written(ports, start, done) && |done| == i < |ports|
    requires forall c, p :: (c, p) in previous <==> Inherited(olds, c, p).Some?
    requires forall c, p :: (c, p) in previous ==> Inherited(olds, c, p) == Some(previous[(c, p)])
    modifies ports
    ensures host == Assigned(start[i], olds, occupied)
    ensures host.Some? ==> Written(ports, start, done + [start[i].(host := host.value)])
  {
    host := ChooseHost(ports[i].Value(), previous, olds, occupied);
    if host.Some? {
      ports[i].host := host.value;
    }
  }

  method ChooseHost(p: Port, previous: map<(int, string), int>, ghost olds: seq<Port>, occupied: set<int>)
    returns (host: Option<int>)
    requires (p.container, p.protocol) in previous <==> Inherited(olds, p.container, p.protocol).Some?
    requires (p.container, p.protocol) in previous ==>
      Inherited(olds, p.container, p.protocol) == Some(previous[(p.container, p.protocol)])
    ensures host == Assigned(p, olds, occupied)
  {
    if (p.container, p.protocol) in previous {
      return Some(previous[(p.container, p.protocol)]);
    }
    if p.host in occupied {
      host := FindFreeHostPort(occupied, START, END);
      return;
    }
    return Some(p.host);
  }

  function Prepended(done: seq<Port>, rest: Option<Assignment>): Option<Assignment> {
    if rest.None? then None else Some(Assignment(done + rest.value.ports, rest.value.occupied))
  }

  lemma PrependNothing(rest: Option<Assignment>)
    ensures Prepended([], rest) == rest
  {
    if rest.Some? {
      assert [] + rest.value.ports == rest.value.ports;
    }
  }

  lemma PrependOne(done: seq<Port>, p: Port, rest: Option<Assignment>)
    ensures Prepended(done + [p], rest) == Prepended(done, Prepended([p], rest))
  {
    if rest.Some? {
      assert done + [p] + rest.value.ports == done + ([p] + rest.value.ports);
    }
  }

  lemma NextAssigned(start: seq<Port>, i: nat, olds: seq<Port>, occ: set<int>, done: seq<Port>)
    requires i < |start|
    ensures var host := Assigned(start[i], olds, occ);
      Prepended(done, Preserved(start[i..], olds, occ)) ==
        if host.None? then None
        else Prepended(done + [start[i].(host := host.value)], Preserved(start[i + 1..], olds, occ + {host.value}))
  {
    assert start[i..][0] == start[i] && start[i..][1..] == start[i + 1..];
    var host := Assigned(start[i], olds, occ);
    if host.Some? {
      PrependOne(done, start[i].(host := host.value), Preserved(start[i + 1..], olds, occ + {host.value}));
    }
  }

  // ---- What an assignment guarantees -------------------------------------------------------------

  function Hosts(ports: seq<Port>): set<int> {
    set i | 0 <= i < |ports| :: ports[i].host
  }

  /** A fresh assignment keeps keys and order, only grows the occupied set, and takes nothing that was
      occupied unless the service had it before. */
  lemma {:induction false} PreservedAvoids(news: seq<Port>, olds: seq<Port>, occupied: set<int>, foreign: set<int>)
    requires Preserved(news, olds, occupied).Some? && foreign <= occupied && Hosts(olds) !! foreign
    ensures var a := Preserved(news, olds, occupied).value;
      && |a.ports| == |news| && a.occupied == occupied + Hosts(a.ports) && Hosts(a.ports) !! foreign
    decreases |news|
  {
    if news != [] {
      var host := Assigned(news[0], olds, occupied).value;
      InheritedIsOld(olds, news[0].container, news[0].protocol);
      PreservedAvoids(news[1..], olds, occupied + {host}, foreign);
      var rest := Preserved(news[1..], olds, occupied + {host}).value;
      var a := Preserved(news, olds, occupied).value;
      forall h ensures h in Hosts(a.ports) <==> h == host || h in Hosts(rest.ports) {
        assert a.ports[0].host == host;
        assert forall i :: 0 <= i < |rest.ports| ==> a.ports[i + 1] == rest.ports[i];
        if h in Hosts(a.ports) {
          var i :| 0 <= i < |a.ports| && a.ports[i].host == h;
          assert i > 0 ==> rest.ports[i - 1].host == h;
        }
        if h in Hosts(rest.ports) {
          var i :| 0 <= i < |rest.ports| && rest.ports[i].host == h;
          assert a.ports[i + 1].host == h;
        }
      }
    }
  }

  lemma {:induction false} InheritedIsOld(olds: seq<Port>, container: int, protocol: string)
    ensures Inherited(olds, container, protocol).Some? ==> Inherited(olds, container, protocol).value in Hosts(olds)
  {
    if olds != [] {
      var front := olds[..|olds| - 1];
      InheritedIsOld(front, container, protocol);
      assert olds[|olds| - 1].host in Hosts(olds);
      forall h | h in Hosts(front) ensures h in Hosts(olds) {
        var i :| 0 <= i < |front| && front[i].host == h;
        assert olds[i].host == h;
      }
    }
  }

  /** Every mapping the service had before keeps its host port; keys and order are the manifest's. */
  lemma {:induction false} PreservedKeepsKnown(news: seq<Port>, olds: seq<Port>, occupied: set<int>, i: nat)
    requires Preserved(news, olds, occupied).Some? && i < |news|
    ensures var ports := Preserved(news, olds, occupied).value.ports;
      && |ports| == |news|
      && ports[i].container == news[i].container && ports[i].protocol == news[i].protocol
      && (Inherited(olds, news[i].container, news[i].protocol).Some? ==>
            ports[i].host == Inherited(olds, news[i].container, news[i].protocol).value)
    decreases |news|
  {
    var host := Assigned(news[0], olds, occupied).value;
    if i > 0 {
      PreservedKeepsKnown(news[1..], olds, occupied + {host}, i - 1);
    } else if |news| > 1 {
      PreservedKeepsKnown(news[1..], olds, occupied + {host}, 0);
    }
  }

  /**
   * A mapping that the service did not have before keeps the manifest's port if neither another
   * component nor an earlier mapping has it, and else gets the lowest free one of 10000 to 19999.
   */
  lemma {:induction false} NewMappingGetsPort(news: seq<Port>, olds: seq<Port>, occupied: set<int>, i: nat)
    requires Preserved(news, olds, occupied).Some? && i < |news|
    requires forall j :: 0 <= j < |olds| ==>
      !(olds[j].container == news[i].container && olds[j].protocol == news[i].protocol)
    ensures var ports := Preserved(news, olds, occupied).value.ports;
      && |ports| == |news|
      && var taken, host := occupied + Hosts(ports[..i]), ports[i].host;
      if news[i].host !in taken then host == news[i].host
      else 10000 <= host < 20000 && host !in taken && forall p :: 10000 <= p < host ==> p in taken
    decreases |news|
  {
    var host := Assigned(news[0], olds, occupied).value;
    var ports := Preserved(news, olds, occupied).value.ports;
    NotInherited(olds, news[i].container, news[i].protocol);
    if i == 0 {
      assert ports[..0] == [] && occupied + Hosts([]) == occupied;
      if |news| > 1 { NewMappingLength(news[1..], olds, occupied + {host}); }
    } else {
      NewMappingGetsPort(news[1..], olds, occupied + {host}, i - 1);
      HostsOfFirst(ports, i);
      assert ports[1..][..i - 1] == ports[1..i] && host == ports[0].host;
      assert occupied + {host} + Hosts(ports[1..i]) == occupied + Hosts(ports[..i]);
      assert ports[1..] == Preserved(news[1..], olds, occupied + {host}).value.ports;
    }
  }

  lemma {:induction false} NewMappingLength(news: seq<Port>, olds: seq<Port>, occupied: set<int>)
    requires Preserved(news, olds, occupied).Some?
    ensures |Preserved(news, olds, occupied).value.ports| == |news|
    decreases |news|
  {
    if news != [] {
      NewMappingLength(news[1..], olds, occupied + {Assigned(news[0], olds, occupied).value});
    }
  }

  lemma {:induction false} NotInherited(olds: seq<Port>, container: int, protocol: string)
    requires forall j :: 0 <= j < |olds| ==> !(olds[j].container == container && olds[j].protocol == protocol)
    ensures Inherited(olds, container, protocol).None?
  {
    if olds != [] {
      NotInherited(olds[..|olds| - 1], container, protocol);
    }
  }

  lemma HostsOfFirst(ports: seq<Port>, i: nat)
    requires 0 < i <= |ports|
    ensures Hosts(ports[..i]) == {ports[0].host} + Hosts(ports[1..i])
  {
    forall h ensures h in Hosts(ports[..i]) <==> h in {ports[0].host} + Hosts(ports[1..i]) {
      if h in Hosts(ports[..i]) {
        var j :| 0 <= j < i && ports[..i][j].host == h;
        assert j > 0 ==> ports[1..i][j - 1].host == h;
      }
      if h in Hosts(ports[1..i]) {
        var j :| 0 <= j < i - 1 && ports[1..i][j].host == h;
        assert ports[..i][j + 1].host == h;
      }
      assert ports[..i][0].host == ports[0].host;
    }
  }

  /** An assignment fails only when the occupied ports and the mappings together reach the size of the range. */
  lemma {:induction false} FailureNeedsFullRange(news: seq<Port>, olds: seq<Port>, occupied: set<int>)
    requires Preserved(news, olds, occupied).None?
    ensures |occupied| + |news| >= 10000
    decreases |news|
  {
    var host := Assigned(news[0], olds, occupied);
    if host.None? {
      SearchFailsOnlyWhenFull(occupied, START, END);
      SubsetSize(occupied * Range(START, END), occupied);
    } else {
      FailureNeedsFullRange(news[1..], olds, occupied + {host.value});
    }
  }

  /** No two mappings of one service share container port and protocol. */
  predicate UniqueKeys(ports: seq<Port>) {
    forall i, j :: 0 <= i < j < |ports| ==>
      !(ports[i].container == ports[j].container && ports[i].protocol == ports[j].protocol)
  }

  lemma {:induction false} InheritedUnique(olds: seq<Port>, i: nat)
    requires UniqueKeys(olds) && i < |olds|
    ensures Inherited(olds, olds[i].container, olds[i].protocol) == Some(olds[i].host)
    decreases |olds|
  {
    var front := olds[..|olds| - 1];
    if i < |olds| - 1 {
      assert front[i] == olds[i];
      InheritedUnique(front, i);
    }
  }

  /** Assigning the same manifest again over its own result changes no port and cannot fail. */
  lemma {:induction false} PreservedTwice(news: seq<Port>, olds: seq<Port>, occupied: set<int>, occupied': set<int>)
    requires UniqueKeys(news) && Preserved(news, olds, occupied).Some?
    ensures var ports := Preserved(news, olds, occupied).value.ports;
      var again := Preserved(news, ports, occupied');
      again.Some? && again.value.ports == ports
  {
    var ports := Preserved(news, olds, occupied).value.ports;
    forall i | 0 <= i < |news|
      ensures |ports| == |news| && ports[i].container == news[i].container && ports[i].protocol == news[i].protocol
    {
      PreservedKeepsKnown(news, olds, occupied, i);
    }
    if news == [] {
      assert ports == [];
    }
    AllInherited(news, ports, ports, occupied');
  }

  lemma {:induction false} AllInherited(news: seq<Port>, olds: seq<Port>, result: seq<Port>, occupied: set<int>)
    requires |result| == |news|
    requires forall i :: 0 <= i < |news| ==>
      news[i].container == result[i].container && news[i].protocol == result[i].protocol
    requires forall i :: 0 <= i < |news| ==> result[i] in olds
    requires UniqueKeys(olds)
    ensures var again := Preserved(news, olds, occupied);
      again.Some? && again.value.ports == result
    decreases |news|
  {
    if news != [] {
      var j :| 0 <= j < |olds| && olds[j] == result[0];
      InheritedUnique(olds, j);
      AllInherited(news[1..], olds, result[1..], occupied + {result[0].host});
    }
  }
}
