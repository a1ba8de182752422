/** Processors: named input and output ports plus an attribute schema. Dictionaries of the
    source are sequences here, in insertion order. */
module Processors {
  import opened Attributes

  datatype Port = Port(role: string, dtype: string, required: bool, multiple: bool)

  datatype Processor = Processor(
    consumer: seq<Port>, supplier: seq<Port>, attributes: seq<Attribute>,
    specialInputs: seq<Port>, specialAttributes: seq<Attribute>)

  /** What `processor_lookup` finds: processors under their ids and aliases. */
  type Registry = map<string, Processor>

  function Roles(ports: seq<Port>): set<string> {
    set p | p in ports :: p.role
  }

  /** Assignment of one entry into an insertion-ordered dictionary of ports. */
  function SetPort(ports: seq<Port>, p: Port): seq<Port> {
    if ports == [] then [p]
    else if ports[0].role == p.role then [p] + ports[1..]
    else [ports[0]] + SetPort(ports[1..], p)
  }

  /** `{**ports, **more}`: a repeated role keeps its place and takes the later value. */
  function MergePorts(ports: seq<Port>, more: seq<Port>): seq<Port>
    decreases |more|
  {
    if more == [] then ports else MergePorts(SetPort(ports, more[0]), more[1..])
  }

  function ConsumerPorts(p: Processor): seq<Port> {
    MergePorts(p.consumer, p.specialInputs)
  }

  function ProcessorAttributes(p: Processor): seq<Attribute> {
    p.attributes + p.specialAttributes
  }

  function DtypesOf(ports: seq<Port>): (ds: seq<string>)
    ensures |ds| == |ports| && forall k :: 0 <= k < |ports| ==> ds[k] == ports[k].dtype
  {
    seq(|ports|, k requires 0 <= k < |ports| => ports[k].dtype)
  }

  function Produces(p: Processor): seq<string> { DtypesOf(p.supplier) }

  /** The compatibility refinement: mapping and triangulation want matches that `verify` supplied. */
  predicate RequiresVerified(processor: string, role: string) {
    processor in {"map", "triangulate"} && role == "matches"
  }

  // ----- merging ports with fresh roles is appending them -----

  lemma {:induction false} SetFreshPort(ports: seq<Port>, p: Port)
    requires p.role !in Roles(ports)
    ensures SetPort(ports, p) == ports + [p]
  {
    if ports != [] {
      assert ports[0] in ports;
      forall q | q in ports[1..] ensures q.role != p.role { assert q in ports; }
      SetFreshPort(ports[1..], p);
      assert ports == [ports[0]] + ports[1..];
    }
  }

  ghost predicate DistinctRoles(ports: seq<Port>) {
    forall i, j :: 0 <= i < j < |ports| ==> ports[i].role != ports[j].role
  }

  lemma {:induction false} MergeFreshPorts(ports: seq<Port>, more: seq<Port>)
    requires Roles(ports) !! Roles(more) && DistinctRoles(more)
    ensures MergePorts(ports, more) == ports + more
    decreases |more|
  {
    if more == [] {
      assert ports + more == ports;
    } else {
      assert more[0] in more && more[0].role in Roles(more);
      SetFreshPort(ports, more[0]);
      var ports' := ports + [more[0]];
      forall r | r in Roles(more[1..]) ensures r !in Roles(ports') {
        var q :| q in more[1..] && q.role == r;
        var j :| 0 <= j < |more[1..]| && more[1..][j] == q;
        assert more[j + 1] == q && q in more;
        assert r in Roles(more);
      }
      MergeFreshPorts(ports', more[1..]);
      assert ports' + more[1..] == ports + more;
    }
  }

  lemma {:induction false} SetPortMembers(ports: seq<Port>, p: Port)
    requires DistinctRoles(ports)
    ensures DistinctRoles(SetPort(ports, p))
    ensures forall q :: q in SetPort(ports, p) <==> q == p || (q in ports && q.role != p.role)
  {
    if ports != [] {
      var head, tail := ports[0], ports[1..];
      assert forall q :: q in ports <==> q == head || q in tail;
      assert forall q :: q in tail ==> q.role != head.role;
      SetPortMembers(tail, p);
      DistinctCons(head, SetPort(tail, p));
      DistinctCons(p, tail);
    }
  }

  /** A role that is set again keeps its place. */
  lemma {:induction false} SetPortInPlace(ports: seq<Port>, p: Port)
    ensures p.role in Roles(ports) ==>
              |SetPort(ports, p)| == |ports| && forall k :: 0 <= k < |ports| ==> SetPort(ports, p)[k].role == ports[k].role
  {
    if ports != [] && ports[0].role != p.role {
      SetPortInPlace(ports[1..], p);
      if q :| q in ports && q.role == p.role {
        assert q in ports[1..];
      }
    }
  }

  lemma DistinctCons(p: Port, ports: seq<Port>)
    ensures DistinctRoles(ports) && (forall q :: q in ports ==> q.role != p.role) ==> DistinctRoles([p] + ports)
  {
    var all := [p] + ports;
    if DistinctRoles(ports) && (forall q :: q in ports ==> q.role != p.role) {
      forall i, j | 0 <= i < j < |all| ensures all[i].role != all[j].role {
        assert all[j] == ports[j - 1] && all[j] in ports;
      }
    }
  }

  /** Merging two dictionaries of ports: the later one wins on a shared role, everything else is kept. */
  lemma {:induction false} MergeMembers(ports: seq<Port>, more: seq<Port>)
    requires DistinctRoles(ports) && DistinctRoles(more)
    ensures DistinctRoles(MergePorts(ports, more))
    ensures forall q :: q in MergePorts(ports, more) <==> q in more || (q in ports && q.role !in Roles(more))
    decreases |more|
  {
    if more != [] {
      var p, rest := more[0], more[1..];
      assert forall q :: q in more <==> q == p || q in rest;
      assert forall q :: q in rest ==> q.role != p.role;
      SetPortMembers(ports, p);
      MergeMembers(SetPort(ports, p), rest);
    }
  }
}
