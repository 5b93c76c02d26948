/**
 How a GeeRPC server finds the requests in the stream of frames it reads: a
 header frame, then a body frame, for each request that a client sent.
 `readRequest` leaves the body in the stream when the method is unknown.
 */
module RpcStream {
  import opened Wrappers
  import opened RpcTypes
  import S = RpcServer

  /**
   A gob value on the wire, by what it decodes as: a header, or the argument
   of a method. Which of the two it was sent as is not on the wire.
   */
  datatype Frame = Frame(header: Option<Header>, body: string -> Option<Value>)

  /** A request as a client sends it; the header might decode as an argument too, and the body as a header. */
  datatype Sent = Sent(h: Header, asBody: string -> Option<Value>, body: Frame)

  /** The registered services: their methods, by service name. */
  type Registry = map<string, set<string>>

  // ------------------------------------------------------------- findService

  /** strings.LastIndex(s, ".") */
  function LastDot(s: string): (i: int)
    ensures -1 <= i < |s|
    ensures i >= 0 ==> s[i] == '.'
    ensures forall j :: i < j < |s| ==> s[j] != '.'
  {
    if s == [] then -1
    else if s[|s| - 1] == '.' then |s| - 1
    else LastDot(s[..|s| - 1])
  }

  /** `findService`: whether it finds a method. */
  predicate Finds(services: Registry, target: string) {
    var dot := LastDot(target);
    dot >= 0 && target[..dot] in services && target[dot + 1..] in services[target[..dot]]
  }

  /** Found are exactly a registered service's name, a dot and the name of one of its methods, which has no dot. */
  lemma FoundIff(services: Registry, target: string)
    ensures Finds(services, target) <==>
      exists service, name ::
        service in services && name in services[service] && '.' !in name && target == service + "." + name
  {
    if Finds(services, target) {
      var dot := LastDot(target);
      var service, name := target[..dot], target[dot + 1..];
      assert '.' !in name && target == service + "." + name;
    }
    if service, name :|
      service in services && name in services[service] && '.' !in name && target == service + "." + name
    {
      FindsExactlyRegistered(services, service, name);
    }
  }

  /** A target names exactly one service and one of its methods, since no method name has a dot. */
  lemma FindsExactlyRegistered(services: Registry, service: string, name: string)
    requires '.' !in name
    ensures Finds(services, service + "." + name) <==> service in services && name in services[service]
  {
    var target := service + "." + name;
    assert target[|service|] == '.';
    assert forall j :: |service| < j < |target| ==> target[j] == name[j - |service| - 1];
    assert LastDot(target) == |service|;
    assert target[..|service|] == service && target[|service| + 1..] == name;
  }

  // ------------------------------------------------------------- serveCodec

  /** What `readRequest` returns: a request, an error for a header it knows, or nothing to go on with. */
  datatype ReadResult = Read(h: Header, rest: seq<Frame>) | Refused(h: Header, rest: seq<Frame>) | Broken

  function ReadRequest(services: Registry, frames: seq<Frame>): ReadResult {
    if |frames| == 0 || frames[0].header.None? then Broken
    else
      var h := frames[0].header.value;
      if !Finds(services, h.target) then Refused(h, frames[1..])
      else if |frames| == 1 then Refused(h, [])
      else if frames[1].body(h.target).None? then Refused(h, frames[2..])
      else Read(h, frames[2..])
  }

  /** The headers that `serveCodec` acts upon, whether it handles or refuses them. */
  function Served(services: Registry, frames: seq<Frame>): seq<Header>
    decreases |frames|
  {
    match ReadRequest(services, frames)
    case Broken => []
    case Read(h, rest) => [h] + Served(services, rest)
    case Refused(h, rest) => [h] + Served(services, rest)
  }

  /** The loop of `serveCodec`. */
  method Serve(services: Registry, frames: seq<Frame>) returns (acted: seq<Header>)
    ensures acted == Served(services, frames)
  {
    acted := [];
    var left := frames;
    while true
      invariant acted + Served(services, left) == Served(services, frames)
      decreases |left|
    {
      var next := ReadRequest(services, left);
      if next.Broken? { return; }
      assert Served(services, left) == [next.h] + Served(services, next.rest);
      assert acted + ([next.h] + Served(services, next.rest)) == (acted + [next.h]) + Served(services, next.rest);
      acted, left := acted + [next.h], next.rest;
    }
  }

  /** What a client puts on the wire. */
  function Frames(sent: seq<Sent>): seq<Frame> {
    if sent == [] then []
    else [Frame(Some(sent[0].h), sent[0].asBody), sent[0].body] + Frames(sent[1..])
  }

  function Headers(sent: seq<Sent>): seq<Header> { seq(|sent|, i requires 0 <= i < |sent| => sent[i].h) }

  /** How many requests are served before the stream is out of step: up to the first unknown method, and that one. */
  function Reach(services: Registry, sent: seq<Sent>): nat {
    if sent == [] then 0
    else if !Finds(services, sent[0].h.target) then 1
    else 1 + Reach(services, sent[1..])
  }

  lemma {:induction false} ReachIs(services: Registry, sent: seq<Sent>)
    ensures var n := Reach(services, sent);
      && n <= |sent|
      && (forall i :: 0 <= i < n - 1 ==> Finds(services, sent[i].h.target))
      && (n < |sent| ==> n > 0 && !Finds(services, sent[n - 1].h.target))
  {
    if sent != [] && Finds(services, sent[0].h.target) {
      var rest := sent[1..];
      ReachIs(services, rest);
      assert forall i :: 0 < i < |sent| ==> sent[i] == rest[i - 1];
    }
  }

  lemma FirstRequestServed(services: Registry, first: Sent, more: seq<Frame>)
    ensures
      Served(services, [Frame(Some(first.h), first.asBody), first.body] + more) ==
      [first.h] + Served(services, if Finds(services, first.h.target) then more else [first.body] + more)
  {
    var frames := [Frame(Some(first.h), first.asBody), first.body] + more;
    assert frames[0].header == Some(first.h) && frames[1] == first.body;
    assert frames[2..] == more && frames[1..] == [first.body] + more;
  }

  /** What the server takes for requests once one was refused for its method: first of all, the body left behind. */
  function LeftBehind(services: Registry, sent: seq<Sent>): seq<Frame> {
    var n := Reach(services, sent);
    if 0 < n <= |sent| && !Finds(services, sent[n - 1].h.target) then [sent[n - 1].body] + Frames(sent[n..]) else []
  }

  /**
   Of what a client sends, the requests up to and including the first for an
   unknown method are served, in order; after that, whatever its body and what
   follows it happen to decode as.
   */
  lemma {:induction false} ServedUpToFirstUnknown(services: Registry, sent: seq<Sent>)
    ensures Reach(services, sent) <= |sent|
    ensures Served(services, Frames(sent)) ==
      Headers(sent)[..Reach(services, sent)] + Served(services, LeftBehind(services, sent))
  {
    ReachIs(services, sent);
    if sent != [] {
      if Finds(services, sent[0].h.target) {
        ServedUpToFirstUnknown(services, sent[1..]);
        ServedAfterKnown(services, sent);
      } else {
        ServedAfterUnknown(services, sent);
      }
    }
  }

  lemma ServedAfterUnknown(services: Registry, sent: seq<Sent>)
    requires sent != [] && !Finds(services, sent[0].h.target)
    ensures Served(services, Frames(sent)) == Headers(sent)[..1] + Served(services, LeftBehind(services, sent))
  {
    FirstRequestServed(services, sent[0], Frames(sent[1..]));
    LeftBehindFirst(services, sent);
    FirstHeader(sent);
  }

  lemma LeftBehindFirst(services: Registry, sent: seq<Sent>)
    requires sent != [] && !Finds(services, sent[0].h.target)
    ensures LeftBehind(services, sent) == [sent[0].body] + Frames(sent[1..])
  {
  }

  lemma FirstHeader(sent: seq<Sent>)
    requires sent != []
    ensures Headers(sent)[..1] == [sent[0].h]
  {
  }

  lemma ServedAfterKnown(services: Registry, sent: seq<Sent>)
    requires sent != [] && Finds(services, sent[0].h.target) && Reach(services, sent[1..]) < |sent|
    requires Served(services, Frames(sent[1..])) ==
      Headers(sent[1..])[..Reach(services, sent[1..])] + Served(services, LeftBehind(services, sent[1..]))
    ensures Reach(services, sent) == 1 + Reach(services, sent[1..])
    ensures Served(services, Frames(sent)) ==
      Headers(sent)[..Reach(services, sent)] + Served(services, LeftBehind(services, sent))
  {
    FirstRequestServed(services, sent[0], Frames(sent[1..]));
    OneFurther(services, sent);
    HeadersCons(sent);
    Shifted(
      sent[0].h, Headers(sent[1..]), Served(services, LeftBehind(services, sent[1..])), Reach(services, sent[1..]));
  }

  lemma HeadersCons(sent: seq<Sent>)
    requires sent != []
    ensures Headers(sent) == [sent[0].h] + Headers(sent[1..])
  {
  }

  lemma Shifted(h: Header, hs: seq<Header>, more: seq<Header>, n: nat)
    requires n <= |hs|
    ensures [h] + (hs[..n] + more) == ([h] + hs)[..n + 1] + more
  {
  }

  lemma OneFurther(services: Registry, sent: seq<Sent>)
    requires sent != [] && Finds(services, sent[0].h.target)
    ensures Reach(services, sent) == 1 + Reach(services, sent[1..])
    ensures LeftBehind(services, sent) == LeftBehind(services, sent[1..])
  {
    var n, rest := Reach(services, sent), sent[1..];
    ReachIs(services, rest);
    if n > 1 {
      assert sent[n - 1] == rest[n - 2] && sent[n..] == rest[n - 1..];
    }
  }

  /**
   Every request of a connection is served, in order and nothing else, exactly
   when no request but the last names an unknown method, and the last one's
   body, if it does, is no header. This leaves out a body that decodes as the
   very header of the request that follows it.
   */
  lemma AllServedIff(services: Registry, sent: seq<Sent>)
    requires forall i :: 0 <= i < |sent| - 1 ==> sent[i].body.header != Some(sent[i + 1].h)
    ensures Served(services, Frames(sent)) == Headers(sent) <==>
      && (forall i :: 0 <= i < |sent| - 1 ==> Finds(services, sent[i].h.target))
      && (sent != [] && !Finds(services, sent[|sent| - 1].h.target) ==> sent[|sent| - 1].body.header.None?)
  {
    ServedUpToFirstUnknown(services, sent);
    ReachIs(services, sent);
    var n, all, left := Reach(services, sent), Headers(sent), LeftBehind(services, sent);
    var served := Served(services, left);
    if n < |sent| {
      assert left[0] == sent[n - 1].body;
      StartsWithHeader(services, left);
      assert served == [] || (all[..n] + served)[n] == served[0];
      assert all[n] == sent[n].h;
    } else {
      assert all[..n] == all;
      if left != [] { StartsWithHeader(services, left); }
    }
  }

  lemma StartsWithHeader(services: Registry, frames: seq<Frame>)
    requires |frames| > 0
    ensures Served(services, frames) == [] <==> frames[0].header.None?
    ensures Served(services, frames) != [] ==> Some(Served(services, frames)[0]) == frames[0].header
  {
  }

  /** A body that is left behind and decodes as a header is taken for a request that nobody sent. */
  lemma LeftoverTakenForRequest(services: Registry, first: Sent)
    requires !Finds(services, first.h.target) && first.body.header.Some?
    ensures |Served(services, Frames([first]))| > 1 && Served(services, Frames([first]))[1] == first.body.header.value
  {
    FirstRequestServed(services, first, []);
    assert Frames([first]) == [Frame(Some(first.h), first.asBody), first.body] + [];
    StartsWithHeader(services, [first.body] + []);
  }

  // ---------------------------------------------------------------- the server of RpcServer

  /** Its methods are the registered ones. */
  ghost predicate SameMethods(cfg: S.Config, services: Registry) {
    forall target :: target in cfg.service.known <==> Finds(services, target)
  }

  /** Its requests are what was sent, as far as it has arrived. */
  predicate Receives(inp: seq<S.Request>, sent: seq<Sent>) {
    |inp| <= |sent| &&
    forall i :: 0 <= i < |inp| ==> inp[i].h == sent[i].h && inp[i].body == sent[i].body.body(sent[i].h.target)
  }

  /** Once it has read a request for an unknown method, it reads no other. */
  predicate Stops(cfg: S.Config, s: S.Server) {
    && |s.tasks| <= |s.inp|
    && forall k :: 0 <= k < |s.tasks| && s.inp[k].h.target !in cfg.service.known ==>
         k == |s.tasks| - 1 && !s.reader.Reading? && (s.reader.Refusing? ==> s.reader.lost)
  }

  lemma StepKeepsStops(cfg: S.Config, s: S.Server, a: S.Action)
    requires Stops(cfg, s) && S.Enabled(cfg, s, a)
    ensures Stops(cfg, S.Apply(cfg, s, a))
  {
  }

  lemma {:induction false} RunKeepsStops(cfg: S.Config, s: S.Server, run: seq<S.Action>, s': S.Server)
    requires Stops(cfg, s) && S.Reaches(cfg, s, run, s')
    ensures Stops(cfg, s')
    decreases |run|
  {
    if run != [] {
      StepKeepsStops(cfg, s, run[0]);
      RunKeepsStops(cfg, S.Apply(cfg, s, run[0]), run[1..], s');
    }
  }

  /** In every run, the requests that the server of RpcServer has read are the first of those that the stream serves. */
  lemma ServerFollowsStream(
    cfg: S.Config, services: Registry, sent: seq<Sent>, run: seq<S.Action>, s: S.Server, k: nat)
    requires SameMethods(cfg, services) && S.Reaches(cfg, S.Init, run, s) && Receives(s.inp, sent) && k < |s.tasks|
    ensures |s.tasks| <= |s.inp| && |s.tasks| <= |Served(services, Frames(sent))|
    ensures Served(services, Frames(sent))[k] == s.inp[k].h
  {
    RunKeepsStops(cfg, S.Init, run, s);
    ServedUpToFirstUnknown(services, sent);
    ReachIs(services, sent);
    var n := Reach(services, sent);
    assert n < |sent| ==> n > 0 && (n <= |s.inp| ==> s.inp[n - 1].h == sent[n - 1].h);
    assert |s.tasks| <= n;
  }
}
