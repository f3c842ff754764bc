/** Putting together joint runs of authority and nodes, one move after the other. */
module JointRuns {
  import opened Keys
  import opened Certificates
  import opened Domain
  import opened Events
  import opened Policies
  import opened LogNodes
  import opened Safety
  import opened SystemRuns
  import opened Publication
  import opened LostSnapshot

  /** One state more than moves; the last state is where the trace has got to. */
  predicate Formed(t: SystemTrace) {
    |t.states| == |t.moves| + 1
  }

  function Last(t: SystemTrace): System
    requires Formed(t)
  {
    t.states[|t.moves|]
  }

  function Begin(w: World, d: Domain): SystemTrace {
    SystemTrace([System(w, d)], [])
  }

  function Extend(t: SystemTrace, move: Move): SystemTrace
    requires Formed(t) && Allowed(Last(t), move)
  {
    hide Next, Allowed;
    SystemTrace(t.states + [Next(Last(t), move)], t.moves + [move])
  }

  /** The trace goes on by one move. */
  predicate Longer(t: SystemTrace, u: SystemTrace, move: Move) {
    Formed(t) && Formed(u) && u.moves == t.moves + [move] && u.states[..|t.states|] == t.states
  }

  /** An append by this move would follow the record that its chain names. */
  predicate InOrder(s: System, move: Move) {
    move.NodeMove? && move.request.AppendRecord? && move.key in s.world.nodes ==>
      Follows(s.world.nodes[move.key], move.request.record.envelope)
  }

  /** A pop by this move names a frontier that was readable at one of these states. */
  predicate InPublic(states: seq<System>, move: Move) {
    move.NodeMove? && move.request.PopLog? ==>
      exists j :: 0 <= j < |states| && states[j].domain.log.latestSequence == move.request.pop.objectFrontier
  }

  /** One more move, and what it keeps. */
  lemma Extends(t: SystemTrace, move: Move)
    requires IsSystemTrace(t)
    requires Formed(t) && Allowed(Last(t), move)
    ensures var u := Extend(t, move);
            && IsSystemTrace(u)
            && Longer(t, u, move)
            && Last(u) == Next(Last(t), move)
            && (AllOrdered(t) && InOrder(Last(t), move) ==> AllOrdered(u))
            && (AllPublished(t) && InPublic(t.states, move) ==> AllPublished(u))
            && (AllProvisioned(t) && Provisioned(Last(u).world, Last(u).domain) ==> AllProvisioned(u))
            && (Popless(t) && !(move.NodeMove? && move.request.PopLog?) ==> Popless(u))
  {
    hide Next, Allowed, Blank, Fresh, Follows, Provisioned, SourcesKnown;
    var u := Extend(t, move);
    forall n {:trigger MovesAt(u, n)} | 0 <= n < |u.moves|
      ensures MovesAt(u, n)
    {
      if n < |t.moves| {
        assert MovesAt(t, n);
      }
    }
    forall n {:trigger OrderedAt(u, n)} | AllOrdered(t) && InOrder(Last(t), move) && 0 <= n < |u.moves|
      ensures OrderedAt(u, n)
    {
      if n < |t.moves| {
        assert OrderedAt(t, n);
      }
    }
    forall n {:trigger PublishedAt(u, n)} | AllPublished(t) && InPublic(t.states, move) && 0 <= n < |u.moves|
      ensures PublishedAt(u, n)
    {
      assert forall k :: 0 <= k < |t.states| ==> u.states[k] == t.states[k];
      if n < |t.moves| {
        assert PublishedAt(t, n);
      }
    }
    forall n {:trigger ProvisionedAt(u, n)} |
      AllProvisioned(t) && Provisioned(Last(u).world, Last(u).domain) && 0 <= n < |u.states|
      ensures ProvisionedAt(u, n)
    {
      if n < |t.states| {
        assert ProvisionedAt(t, n);
      }
    }
  }

  // ---- turns ----

  /** Every installed policy names nodes, whatever its quorum. */
  predicate KnownTo(w: World, d: Domain) {
    forall logSet :: logSet in d.policies ==> Known(w, d.policies[logSet])
  }

  predicate AllKnown(t: SystemTrace) {
    forall n :: 0 <= n < |t.states| ==> KnownTo(t.states[n].world, t.states[n].domain)
  }

  /** A trace under way, with published pops and known members. */
  predicate Goes(t: SystemTrace) {
    hide IsSystemTrace, AllPublished, AllKnown;
    Formed(t) && IsSystemTrace(t) && AllPublished(t) && AllKnown(t)
  }

  lemma Starts(w: World, d: Domain)
    requires Blank(w) && d == Fresh(d.cell, d.tenant, d.log.generation)
    ensures Goes(Begin(w, d)) && AllOrdered(Begin(w, d))
    ensures SourcesKnown(w) ==> AllProvisioned(Begin(w, d))
  {
    hide Blank, SourcesKnown, Known, Majority;
  }

  lemma SameNodesKnow(w: World, next: World, d: Domain)
    requires w.nodes.Keys == next.nodes.Keys
    ensures KnownTo(w, d) ==> KnownTo(next, d)
    ensures Provisioned(w, d) ==> Provisioned(next, d)
  {
    hide MemberMap, Majority;
  }

  lemma SamePoliciesKnow(w: World, d: Domain, next: Domain)
    requires next.policies == d.policies
    ensures KnownTo(w, d) ==> KnownTo(w, next)
    ensures Provisioned(w, d) ==> Provisioned(w, next)
  {
    hide Known, Majority;
  }

  /** A node serves a request. */
  lemma NodeTurn(t: SystemTrace, key: Bytes, request: Request) returns (u: SystemTrace)
    requires Goes(t)
    requires key in Last(t).world.nodes && !request.InstallSnapshot? && InPublic(t.states, NodeMove(key, request))
    ensures Goes(u) && Longer(t, u, NodeMove(key, request)) && Last(u).domain == Last(t).domain
    ensures var answer := Serve(Last(t).world.nodes[key], key, request);
            && Last(u).world.nodes == Last(t).world.nodes[key := answer.node]
            && Last(t).world.issued <= Last(u).world.issued
            && (answer.signature.Some? ==> answer.signature.value in Last(u).world.issued)
    ensures AllProvisioned(t) ==> AllProvisioned(u)
    ensures AllOrdered(t) && InOrder(Last(t), NodeMove(key, request)) ==> AllOrdered(u)
    ensures Popless(t) && !request.PopLog? ==> Popless(u)
  {
    hide IsSystemTrace, AllOrdered, AllPublished, Popless, InOrder, InPublic, KnownTo, Provisioned, SourcesKnown, Serve;
    var move := NodeMove(key, request);
    Extends(t, move);
    u := Extend(t, move);
    SameNodesKnow(Last(t).world, Last(u).world, Last(t).domain);
    assert ProvisionedAt(t, |t.moves|) ==> Provisioned(Last(t).world, Last(t).domain);
  }

  /** The authority applies a command. */
  lemma CommandTurn(t: SystemTrace, entry: Entry) returns (u: SystemTrace)
    requires Goes(t)
    requires entry.StagedEntry? ==> AuthenticCommand(Last(t).world, entry.command)
    requires KnownTo(Last(t).world, Step(Last(t).domain, entry))
    ensures Goes(u) && Longer(t, u, CommandMove(entry))
    ensures Last(u) == Last(t).(domain := Step(Last(t).domain, entry))
    ensures AllProvisioned(t) && Provisioned(Last(u).world, Last(u).domain) ==> AllProvisioned(u)
    ensures AllOrdered(t) ==> AllOrdered(u)
    ensures Popless(t) ==> Popless(u)
  {
    hide IsSystemTrace, AllOrdered, AllPublished, Popless, AllProvisioned, KnownTo, Provisioned, AuthenticCommand, Step;
    var move := CommandMove(entry);
    Extends(t, move);
    u := Extend(t, move);
  }

  /** The authority applies routine commands, which leave policies as they are. */
  lemma {:induction false} RoutineTurns(t: SystemTrace, entries: seq<Entry>) returns (u: SystemTrace)
    requires Goes(t) && AllProvisioned(t) && AllOrdered(t)
    requires forall i :: 0 <= i < |entries| ==> Routine(entries[i])
    ensures Goes(u) && AllProvisioned(u) && AllOrdered(u)
    ensures Last(u) == Last(t).(domain := RunFrom(Last(t).domain, entries))
    ensures Last(u).domain.policies == Last(t).domain.policies
    decreases |entries|
  {
    hide IsSystemTrace, AllPublished, AllOrdered, Step, KnownTo, Provisioned, SourcesKnown;
    if entries == [] {
      u := t;
    } else {
      var n := |entries| - 1;
      var before := RoutineTurns(t, entries[..n]);
      var s, entry := Last(before), entries[n];
      OtherKeepsPolicies(s.domain, entry);
      SamePoliciesKnow(s.world, s.domain, Step(s.domain, entry));
      assert ProvisionedAt(before, |before.moves|);
      u := CommandTurn(before, entry);
    }
  }
}
