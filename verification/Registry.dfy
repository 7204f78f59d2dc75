// The container registry of internal/control/server.go: its PUT and DELETE handlers and what one
// request does to the registry and to the relay it drives.
module Registry {
  import opened Basics
  import C = Coordinator
  import Relay

  // One call of the controller: whether the intent reached the coordinator, and whether the caller
  // saw the answer before its context ended.
  datatype Call = Call(sent: bool, answered: bool, at: Time)

  predicate Accepted(call: Call) {
    call.sent && call.answered
  }

  datatype Request = Put(id: string, path: string) | Delete(id: string)
  datatype Calls = Calls(remove: Call, add: Call)

  // The registry afterwards, the commands the coordinator received, and whether 202 was returned.
  datatype Reply = Reply(registry: map<string, string>, issued: seq<C.Event>, ok: bool)

  function Issued(op: C.Op, path: string, call: Call): seq<C.Event> {
    if call.sent then [C.Command(C.Cmd(op, path), call.at)] else []
  }

  // The path a request takes away from its container, if any.
  function Displaced(registry: map<string, string>, r: Request): Option<string> {
    if r.id in registry && (r.Delete? || registry[r.id] != r.path) then Some(registry[r.id]) else None
  }

  // The registry once the request has succeeded.
  function Written(registry: map<string, string>, r: Request): map<string, string> {
    match r
    case Put(id, path) => registry[id := path]
    case Delete(id) => registry - {id}
  }

  function Handle(registry: map<string, string>, r: Request, calls: Calls): Reply {
    var gone := Displaced(registry, r);
    var removal := if gone.Some? then Issued(C.Remove, gone.value, calls.remove) else [];
    if gone.Some? && !Accepted(calls.remove) then Reply(registry, removal, false)
    else match r
    case Delete(_) => Reply(Written(registry, r), removal, true)
    case Put(_, path) =>
      var issued := removal + Issued(C.Add, path, calls.add);
      if Accepted(calls.add) then Reply(Written(registry, r), issued, true) else Reply(registry, issued, false)
  }

  // The paths a request may touch: the one it takes away and the one it brings.
  function OwnPaths(registry: map<string, string>, r: Request): set<string> {
    (if Displaced(registry, r).Some? then {Displaced(registry, r).value} else {}) + (if r.Put? then {r.path} else {})
  }

  // When a request is answered with success: a DELETE exactly when its container is unknown or the
  // removal was accepted; a PUT exactly when the addition was accepted and so was the removal of
  // another path the container held. A request that fails leaves the registry alone.
  lemma SucceedsIff(registry: map<string, string>, r: Request, calls: Calls)
    ensures r.Delete? ==> (Handle(registry, r, calls).ok <==> r.id !in registry || Accepted(calls.remove))
    ensures r.Put? ==>
              (Handle(registry, r, calls).ok
               <==> Accepted(calls.add) && (r.id in registry && registry[r.id] != r.path ==> Accepted(calls.remove)))
    ensures var after := Handle(registry, r, calls).registry;
            && (!Handle(registry, r, calls).ok ==> after == registry)
            && (Handle(registry, r, calls).ok ==> if r.Put? then r.id in after && after[r.id] == r.path else r.id !in after)
            && forall id | id != r.id :: (id in after <==> id in registry) && (id in after ==> after[id] == registry[id])
  {
  }

  // The commands a request issues: the removal of the path it takes away first, and the addition only
  // once that was accepted.
  lemma RemovesFirst(registry: map<string, string>, r: Request, calls: Calls)
    ensures var issued, gone := Handle(registry, r, calls).issued, Displaced(registry, r);
            && (forall i | 0 <= i < |issued| :: issued[i].Command?)
            && (gone.Some? && calls.remove.sent <==>
                  issued != [] && issued[0].cmd.op.Remove? && issued[0].cmd == C.Cmd(C.Remove, registry[r.id]))
            && (r.Put? && calls.add.sent && (gone.Some? ==> Accepted(calls.remove)) <==>
                  issued != [] && issued[|issued| - 1].cmd.op.Add?)
            && (forall i | 0 <= i < |issued| && issued[i].cmd.op.Add? :: i == |issued| - 1 && issued[i].cmd.path == r.path)
  {
  }

  ghost function After(c: C.Coord, events: seq<C.Event>, ok: iset<string>): C.Coord {
    if events == [] then c else C.Step(After(c, events[..|events| - 1], ok), events[|events| - 1], ok)
  }

  // ---- The code ----

  const ACCEPTED := 202
  const INTERNAL_ERROR := 500

  // A handler issues at most two commands.
  lemma AfterOne(c: C.Coord, events: seq<C.Event>, ok: iset<string>)
    requires |events| <= 2
    ensures After(c, events, ok) ==
              if events == [] then c
              else if |events| == 1 then C.Step(c, events[0], ok)
              else C.Step(C.Step(c, events[0], ok), events[1], ok)
  {
    if events != [] {
      assert events[..1][..0] == [];
    }
  }

  class Server {
    const relay: Relay.Relay
    var containerNamespaces: map<string, string>

    constructor (relay: Relay.Relay)
      ensures this.relay == relay && containerNamespaces == map[]
    {
      this.relay, containerNamespaces := relay, map[];
    }

    // Both handlers hold containerMu from here on.
    method PutContainer(id: string, path: string, calls: Calls) returns (status: int)
      modifies this, relay`pendingAdd, relay`pendingDel, relay`timer
      ensures var reply := Handle(old(containerNamespaces), Put(id, path), calls);
              && containerNamespaces == reply.registry
              && relay.View() == After(old(relay.View()), reply.issued, iset{})
              && status == if reply.ok then ACCEPTED else INTERNAL_ERROR
    {
      ghost var view := relay.View();
      if id in containerNamespaces && containerNamespaces[id] != path {
        var oldPath := containerNamespaces[id];
        var removed := relay.Submit(C.Cmd(C.Remove, oldPath), calls.remove.at, calls.remove.sent, calls.remove.answered);
        AfterOne(view, Issued(C.Remove, oldPath, calls.remove), iset{});
        if !removed {
          return INTERNAL_ERROR;
        }
      }
      ghost var issued := Handle(containerNamespaces, Put(id, path), calls).issued;
      var added := relay.Submit(C.Cmd(C.Add, path), calls.add.at, calls.add.sent, calls.add.answered);
      AfterOne(view, issued, iset{});
      if !added {
        return INTERNAL_ERROR;
      }
      containerNamespaces := containerNamespaces[id := path];
      return ACCEPTED;
    }

    method DeleteContainer(id: string, calls: Calls) returns (status: int)
      modifies this, relay`pendingAdd, relay`pendingDel, relay`timer
      ensures var reply := Handle(old(containerNamespaces), Delete(id), calls);
              && containerNamespaces == reply.registry
              && relay.View() == After(old(relay.View()), reply.issued, iset{})
              && status == if reply.ok then ACCEPTED else INTERNAL_ERROR
    {
      ghost var view := relay.View();
      if id in containerNamespaces {
        var path := containerNamespaces[id];
        var removed := relay.Submit(C.Cmd(C.Remove, path), calls.remove.at, calls.remove.sent, calls.remove.answered);
        AfterOne(view, Issued(C.Remove, path, calls.remove), iset{});
        if !removed {
          return INTERNAL_ERROR;
        }
        containerNamespaces := containerNamespaces - {id};
      } else {
        assert containerNamespaces - {id} == containerNamespaces;
      }
      return ACCEPTED;
    }
  }

  // ---- One request, on the registry and the relay together ----

  // Another container is registered under the path that `r` displaces.
  ghost predicate Shared(registry: map<string, string>, r: Request) {
    Displaced(registry, r).Some?
    && exists other :: other in registry && other != r.id && registry[other] == Displaced(registry, r).value
  }

  // The path will be active once the pending intents are reconciled, if it can be built.
  predicate Wanted(c: C.Coord, path: string) {
    path in c.pending.add || (path in c.active && path !in c.pending.del)
  }

  // On the container paths the relay wants exactly what the registry holds.
  ghost predicate Agrees(registry: map<string, string>, c: C.Coord, paths: iset<string>) {
    && (forall id | id in registry :: registry[id] in paths)
    && (forall p | p in paths :: Wanted(c, p) <==> p in registry.Values)
  }

  lemma RequestEffect(registry: map<string, string>, c: C.Coord, r: Request, calls: Calls, ok: iset<string>, p: string)
    requires Handle(registry, r, calls).ok
    ensures var c' := After(c, Handle(registry, r, calls).issued, ok);
            && c'.active == c.active
            && (Wanted(c', p) <==> (r.Put? && p == r.path) || (Displaced(registry, r) != Some(p) && Wanted(c, p)))
  {
    AfterOne(c, Handle(registry, r, calls).issued, ok);
  }

  lemma WrittenValues(registry: map<string, string>, r: Request, p: string)
    ensures var registry' := Written(registry, r);
            p in registry'.Values <==>
              (r.Put? && p == r.path)
              || (exists other :: other in registry && other != r.id && registry[other] == p)
  {
    var registry' := Written(registry, r);
    if r.Put? {
      assert registry'[r.id] == r.path;
    }
    if other :| other in registry && other != r.id && registry[other] == p {
      assert other in registry' && registry'[other] == p;
    }
    if p in registry'.Values {
      var x :| x in registry' && registry'[x] == p;
      assert x == r.id || (x in registry && registry[x] == p);
    }
  }

  lemma SharedIsDisplaced(registry: map<string, string>, r: Request)
    requires Shared(registry, r)
    ensures Displaced(registry, r).Some?
  {
  }

  lemma AgreementAt(registry: map<string, string>, c: C.Coord, r: Request, calls: Calls, ok: iset<string>, p: string)
    requires Handle(registry, r, calls).ok && (Wanted(c, p) <==> p in registry.Values)
    ensures var reply := Handle(registry, r, calls);
            (Wanted(After(c, reply.issued, ok), p) <==> p in reply.registry.Values)
            <==> !(Displaced(registry, r) == Some(p) && Shared(registry, r))
  {
    RequestEffect(registry, c, r, calls, ok, p);
    WrittenValues(registry, r, p);
    assert Handle(registry, r, calls).registry == Written(registry, r);
    hide Handle;
    hide After;
    hide Wanted;
    if p in registry.Values {
      var x :| x in registry && registry[x] == p;
      assert x == r.id || (exists other :: other in registry && other != r.id && registry[other] == p);
    }
  }

  // One request whose calls succeed keeps the agreement exactly when the path it takes away is not
  // still held by another container.
  lemma RequestKeepsAgreementIff(registry: map<string, string>, c: C.Coord, paths: iset<string>,
                                 r: Request, calls: Calls, ok: iset<string>)
    requires Agrees(registry, c, paths) && Handle(registry, r, calls).ok && (r.Put? ==> r.path in paths)
    ensures var reply := Handle(registry, r, calls);
            Agrees(reply.registry, After(c, reply.issued, ok), paths) <==> !Shared(registry, r)
  {
    var reply := Handle(registry, r, calls);
    assert forall id | id in reply.registry :: reply.registry[id] in paths;
    assert Shared(registry, r) ==> Displaced(registry, r).value in paths;
    hide Handle;
    hide After;
    hide Wanted;
    hide Shared;
    hide Displaced;
    forall p | p in paths {
      AgreementAt(registry, c, r, calls, ok, p);
    }
    if Shared(registry, r) {
      SharedIsDisplaced(registry, r);
      AgreementAt(registry, c, r, calls, ok, Displaced(registry, r).value);
    }
  }

  // Two containers under one path, one of them deleted: the other is registered and not wanted.
  lemma SharedPathExample(ok: iset<string>)
    ensures var registry, c := map["a" := "/p", "b" := "/p"], C.Coord(C.NOTHING, None, {"/p"});
            var reply := Handle(registry, Delete("a"), Calls(Call(true, true, 0), Call(true, true, 0)));
            && Agrees(registry, c, iset{"/p"})
            && reply.ok && reply.registry == map["b" := "/p"]
            && !Wanted(After(c, reply.issued, ok), "/p")
  {
    var registry, c := map["a" := "/p", "b" := "/p"], C.Coord(C.NOTHING, None, {"/p"});
    assert registry["a"] == "/p";
    AfterOne(c, Handle(registry, Delete("a"), Calls(Call(true, true, 0), Call(true, true, 0))).issued, ok);
  }

  // ---- Retrying at once ----

  // Failed attempts at the same request, one after the other.
  ghost function Attempts(registry: map<string, string>, c: C.Coord, r: Request, failed: seq<Calls>,
                          ok: iset<string>): C.Coord
  {
    if failed == [] then c
    else
      var n := |failed| - 1;
      After(Attempts(registry, c, r, failed[..n], ok), Handle(registry, r, failed[n]).issued, ok)
  }

  // `c` differs from `clean` at most in what is pending for the paths `own`.
  ghost predicate SameButFor(clean: C.Coord, c: C.Coord, own: set<string>) {
    && c.active == clean.active
    && forall p: string :: p !in own ==>
         (p in c.pending.add <==> p in clean.pending.add) && (p in c.pending.del <==> p in clean.pending.del)
  }

  lemma IssuedAreOwn(registry: map<string, string>, r: Request, calls: Calls)
    ensures var issued := Handle(registry, r, calls).issued;
            && |issued| <= 2
            && forall i | 0 <= i < |issued| :: issued[i].Command? && issued[i].cmd.path in OwnPaths(registry, r)
  {
  }

  lemma CommandTouches(clean: C.Coord, c: C.Coord, own: set<string>, e: C.Event, ok: iset<string>)
    requires SameButFor(clean, c, own) && e.Command? && e.cmd.path in own
    ensures SameButFor(clean, C.Step(c, e, ok), own)
  {
  }

  lemma {:induction false} AttemptsTouchOwnPaths(registry: map<string, string>, c: C.Coord, r: Request,
                                                 failed: seq<Calls>, ok: iset<string>)
    ensures SameButFor(c, Attempts(registry, c, r, failed, ok), OwnPaths(registry, r))
  {
    if failed == [] {
    } else {
      var n, own := |failed| - 1, OwnPaths(registry, r);
      var before, issued := Attempts(registry, c, r, failed[..n], ok), Handle(registry, r, failed[n]).issued;
      AttemptsTouchOwnPaths(registry, c, r, failed[..n], ok);
      IssuedAreOwn(registry, r, failed[n]);
      AfterOne(before, issued, ok);
      hide SameButFor;
      hide OwnPaths;
      hide Handle;
      if |issued| > 0 {
        CommandTouches(c, before, own, issued[0], ok);
      }
      if |issued| > 1 {
        CommandTouches(c, C.Step(before, issued[0], ok), own, issued[1], ok);
      }
    }
  }

  // The commands of a successful request, one step each.
  lemma SuccessSteps(registry: map<string, string>, r: Request, good: Calls, c: C.Coord, ok: iset<string>)
    requires Handle(registry, r, good).ok
    ensures var gone := Displaced(registry, r);
            var c1 := if gone.Some? then C.Step(c, C.Command(C.Cmd(C.Remove, gone.value), good.remove.at), ok) else c;
            After(c, Handle(registry, r, good).issued, ok)
            == if r.Put? then C.Step(c1, C.Command(C.Cmd(C.Add, r.path), good.add.at), ok) else c1
  {
    AfterOne(c, Handle(registry, r, good).issued, ok);
    hide C.Step;
  }

  // What a successful request leaves pending: its own paths are decided, all others are as before.
  lemma {:induction false} SuccessDecides(registry: map<string, string>, r: Request, good: Calls, c: C.Coord,
                                         ok: iset<string>, p: string)
    requires Handle(registry, r, good).ok
    ensures var c' := After(c, Handle(registry, r, good).issued, ok);
            && c'.active == c.active
            && (p in c'.pending.add <==>
                  if p in OwnPaths(registry, r) then r.Put? && p == r.path else p in c.pending.add)
            && (p in c'.pending.del <==>
                  if p in OwnPaths(registry, r) then !(r.Put? && p == r.path) else p in c.pending.del)
  {
    SuccessSteps(registry, r, good, c, ok);
    hide After;
    hide Handle;
  }

  lemma SameTimer(registry: map<string, string>, r: Request, good: Calls, clean: C.Coord, c: C.Coord, ok: iset<string>)
    requires Handle(registry, r, good).issued != []
    ensures After(c, Handle(registry, r, good).issued, ok).timer == After(clean, Handle(registry, r, good).issued, ok).timer
  {
    var issued := Handle(registry, r, good).issued;
    IssuedAreOwn(registry, r, good);
    AfterOne(c, issued, ok);
    AfterOne(clean, issued, ok);
  }

  lemma SuccessOverwrites(registry: map<string, string>, r: Request, good: Calls,
                          clean: C.Coord, c: C.Coord, ok: iset<string>)
    requires Handle(registry, r, good).ok && Handle(registry, r, good).issued != []
    requires SameButFor(clean, c, OwnPaths(registry, r))
    ensures After(c, Handle(registry, r, good).issued, ok) == After(clean, Handle(registry, r, good).issued, ok)
  {
    var issued, own := Handle(registry, r, good).issued, OwnPaths(registry, r);
    var a, b := After(c, issued, ok), After(clean, issued, ok);
    SameTimer(registry, r, good, clean, c, ok);
    hide OwnPaths;
    hide Handle;
    hide After;
    forall p
      ensures (p in a.pending.add <==> p in b.pending.add) && (p in a.pending.del <==> p in b.pending.del)
    {
      SuccessDecides(registry, r, good, c, ok, p);
      SuccessDecides(registry, r, good, clean, ok, p);
    }
    SuccessDecides(registry, r, good, c, ok, "");
    SuccessDecides(registry, r, good, clean, ok, "");
    assert a.pending.add == b.pending.add && a.pending.del == b.pending.del;
  }

  // A request that issues no command cannot fail.
  lemma IssuesNothing(registry: map<string, string>, r: Request, good: Calls, calls: Calls)
    requires Handle(registry, r, good).ok && Handle(registry, r, good).issued == []
    ensures Handle(registry, r, calls).ok
  {
  }

  // A request that is retried at once, however often it fails, at the removal or at the addition,
  // recorded or not: one success then leaves the registry, the pending sets, the timer and the
  // active set exactly as one clean call would have.
  lemma PromptRetryIsClean(registry: map<string, string>, c: C.Coord, r: Request, failed: seq<Calls>, good: Calls,
                           ok: iset<string>)
    requires forall i | 0 <= i < |failed| :: !Handle(registry, r, failed[i]).ok
    requires Handle(registry, r, good).ok
    ensures forall i | 0 <= i < |failed| :: Handle(registry, r, failed[i]).registry == registry
    ensures After(Attempts(registry, c, r, failed, ok), Handle(registry, r, good).issued, ok)
         == After(c, Handle(registry, r, good).issued, ok)
  {
    var tried := Attempts(registry, c, r, failed, ok);
    if Handle(registry, r, good).issued != [] {
      AttemptsTouchOwnPaths(registry, c, r, failed, ok);
      SuccessOverwrites(registry, r, good, c, tried, ok);
    } else if failed != [] {
      IssuesNothing(registry, r, good, failed[0]);
    }
  }
}
