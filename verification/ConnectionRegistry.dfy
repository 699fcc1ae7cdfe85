// MultiServerAbstraction and AbstractClientConnection: the lists of connections, the queue
// broadcasts are dealt from, cookies, and the handshake that merges a returning client onto its
// old connection. Every method is proved to be a function on a snapshot of the whole registry.
module ConnectionRegistry {
  import opened Wrappers
  import opened CookieSearch

  // A socket; known: one of the kinds whose errors can be listened to.
  class Device {
    const known: bool
    constructor (known: bool)
      ensures this.known == known
    {
      this.known := known;
    }
  }

  // ---------- the registry as a value ----------

  // builds: how often the protocol knower was told to build its lists.
  datatype ConnState = ConnState(cookie: Option<Cookie>, old_: Connection?, queueing: bool, device: Device, builds: nat)

  datatype State = State(conns: map<Connection, ConnState>, ignoringHello: seq<Connection>, helloed: seq<Connection>,
                         dead: seq<Connection>, roundRobin: seq<Connection>)

  function RemoveAll<T(==)>(xs: seq<T>, x: T): (r: seq<T>)
    ensures forall y | y in r :: y in xs && y != x
    ensures forall y | y in xs && y != x :: y in r
  {
    if xs == [] then []
    else
      var rest := RemoveAll(xs[1..], x);
      if xs[0] == x then rest else [xs[0]] + rest
  }

  function Count<T(==)>(xs: seq<T>, x: T): (n: nat)
    ensures n > 0 <==> x in xs
  {
    if xs == [] then 0 else (if xs[0] == x then 1 else 0) + Count(xs[1..], x)
  }

  // Every connection a list or a connection points to is one of the server's.
  ghost predicate Closed(s: State)
  {
    && (forall c | c in s.helloed :: c in s.conns)
    && (forall c | c in s.dead :: c in s.conns)
    && (forall c | c in s.roundRobin :: c in s.conns)
    && (forall c | c in s.conns && s.conns[c].old_ != null :: s.conns[c].old_ in s.conns)
  }

  function With(s: State, c: Connection, x: ConnState): State { s.(conns := s.conns[c := x]) }

  function Announced(s: State, c: Connection): State { s.(helloed := s.helloed + [c]) }

  // The queue is only cleaned up when the connection was listed exactly once.
  function DontBroadcast(s: State, c: Connection): State
  {
    s.(helloed := RemoveAll(s.helloed, c),
       roundRobin := if Count(s.helloed, c) == 1 then RemoveAll(s.roundRobin, c) else s.roundRobin)
  }

  // The lists are built when queueing goes from off to on, and only then.
  function SetQueueing(s: State, c: Connection, on: bool): State
    requires c in s.conns
  {
    var x := s.conns[c];
    if on == x.queueing then s else With(s, c, x.(queueing := on, builds := x.builds + if on then 1 else 0))
  }

  function Bad(s: State, c: Connection): State
    requires c in s.conns
  {
    var t := DontBroadcast(s, c);
    SetQueueing(t.(dead := t.dead + [c]), c, true)
  }

  // ---------- cookies ----------

  function CookieOf(s: State, c: Connection): Option<Cookie>
  {
    if c in s.conns then s.conns[c].cookie else None
  }

  function FirstWith(s: State, xs: seq<Connection>, cookie: Cookie): (r: Connection?)
    ensures r != null ==> r in xs && CookieOf(s, r) == Some(cookie)
    ensures r == null ==> forall c | c in xs :: CookieOf(s, c) != Some(cookie)
  {
    if xs == [] then null
    else if CookieOf(s, xs[0]) == Some(cookie) then xs[0]
    else FirstWith(s, xs[1..], cookie)
  }

  // Helloed connections first, then the dead ones.
  function Existing(s: State, cookie: Cookie): (r: Connection?)
    requires Closed(s)
    ensures r != null ==> r in s.conns && CookieOf(s, r) == Some(cookie) && r in s.helloed + s.dead
    ensures r == null ==> forall c | c in s.helloed + s.dead :: CookieOf(s, c) != Some(cookie)
  {
    var h := FirstWith(s, s.helloed, cookie);
    if h != null then h else FirstWith(s, s.dead, cookie)
  }

  // The first one that has the cookie, where all helloed connections come before all dead ones.
  lemma ExistingIsFirst(s: State, cookie: Cookie, i: nat)
    requires Closed(s) && i < |s.helloed + s.dead| && CookieOf(s, (s.helloed + s.dead)[i]) == Some(cookie)
    requires forall j | 0 <= j < i :: CookieOf(s, (s.helloed + s.dead)[j]) != Some(cookie)
    ensures Existing(s, cookie) == (s.helloed + s.dead)[i]
  {
    var all := s.helloed + s.dead;
    if i < |s.helloed| {
      assert forall j | 0 <= j <= i :: all[j] == s.helloed[j];
      FirstWithAt(s, s.helloed, cookie, i);
    } else {
      assert forall j | 0 <= j <= i - |s.helloed| :: all[|s.helloed| + j] == s.dead[j];
      FirstWithAt(s, s.dead, cookie, i - |s.helloed|);
      assert forall c | c in s.helloed :: CookieOf(s, c) != Some(cookie) by {
        assert forall j | 0 <= j < |s.helloed| :: all[j] == s.helloed[j];
      }
    }
  }

  lemma {:induction false} FirstWithAt(s: State, xs: seq<Connection>, cookie: Cookie, i: nat)
    requires i < |xs| && CookieOf(s, xs[i]) == Some(cookie)
    requires forall j | 0 <= j < i :: CookieOf(s, xs[j]) != Some(cookie)
    ensures FirstWith(s, xs, cookie) == xs[i]
  {
    if i > 0 {
      assert CookieOf(s, xs[0]) != Some(cookie);
      forall j | 0 <= j < i - 1 ensures CookieOf(s, xs[1..][j]) != Some(cookie) { assert xs[1..][j] == xs[j + 1]; }
      FirstWithAt(s, xs[1..], cookie, i - 1);
    }
  }

  function CookiesOf(s: State, xs: seq<Connection>): (r: seq<Option<Cookie>>)
    ensures |r| == |xs| && forall i | 0 <= i < |r| :: r[i] == CookieOf(s, xs[i])
  {
    seq(|xs|, i requires 0 <= i < |xs| => CookieOf(s, xs[i]))
  }

  // The cookies in the order in which a search meets them.
  function Order(s: State): seq<Option<Cookie>> { CookiesOf(s, s.helloed) + CookiesOf(s, s.dead) }

  // Everybody who is searched has a cookie.
  ghost predicate Searchable(s: State)
  {
    forall c | c in s.helloed + s.dead :: CookieOf(s, c).Some?
  }

  ghost predicate Unused(s: State, cookie: Cookie)
  {
    forall c | c in s.helloed + s.dead :: CookieOf(s, c) != Some(cookie)
  }

  lemma CookiesInOrder(s: State, k: Option<Cookie>)
    ensures k in Order(s) <==> exists c :: c in s.helloed + s.dead && CookieOf(s, c) == k
  {
    if k in Order(s) {
      var i :| 0 <= i < |Order(s)| && Order(s)[i] == k;
      var c := (s.helloed + s.dead)[i];
      assert c in s.helloed + s.dead && CookieOf(s, c) == k;
    }
    if c: Connection :| c in s.helloed + s.dead && CookieOf(s, c) == k {
      if c in s.helloed {
        var i :| 0 <= i < |s.helloed| && s.helloed[i] == c;
        assert Order(s)[i] == k;
      } else {
        var i :| 0 <= i < |s.dead| && s.dead[i] == c;
        assert Order(s)[|s.helloed| + i] == k;
      }
    }
  }

  // generateUnusedCookie: a cookie comes out if and only if every helloed and every dead
  // connection has one and generateCookie comes up with an unused value, and it is unused.
  lemma CookieComesOutIff(s: State, candidates: seq<Cookie>)
    ensures var r := Generate(Order(s), candidates);
            && (r.Some? <==> Searchable(s) && exists k :: k in candidates && Unused(s, k))
            && (r.Some? ==> r.value.0 in candidates && Unused(s, r.value.0))
  {
    GenerateReturnsIff(Order(s), candidates);
    CookiesInOrder(s, None);
    forall k: Cookie ensures Unused(s, k) <==> Some(k) !in Order(s) { CookiesInOrder(s, Some(k)); }
  }

  lemma {:induction false} FirstWithInOrder(s: State, xs: seq<Connection>, cookie: Cookie)
    ensures FirstWith(s, xs, cookie) != null <==> Some(cookie) in CookiesOf(s, xs)
  {
    if xs != [] {
      FirstWithInOrder(s, xs[1..], cookie);
      assert CookiesOf(s, xs) == [CookieOf(s, xs[0])] + CookiesOf(s, xs[1..]);
    }
  }

  // The connections of a list where a search meets them.
  ghost predicate MetAt(s: State, xs: seq<Connection>, before: nat)
  {
    before + |xs| <= |Order(s)| && forall i | 0 <= i < |xs| :: Order(s)[before + i] == CookieOf(s, xs[i])
  }

  lemma HelloedThenDead(s: State, cookie: Cookie, candidates: seq<Cookie>)
    ensures MetAt(s, s.helloed, 0) && MetAt(s, s.dead, |s.helloed|)
    ensures Search(Order(s), |s.helloed| + |s.dead|, cookie, candidates) == Some(Searched(false, candidates))
  {
  }

  // The search went past so many connections of the list.
  ghost predicate Passed(s: State, xs: seq<Connection>, before: nat, i: nat, cookie: Cookie, candidates: seq<Cookie>)
  {
    && MetAt(s, xs, before) && i <= |xs|
    && Search(Order(s), before, cookie, candidates) == Search(Order(s), before + i, cookie, candidates)
    && FirstWith(s, xs, cookie) == FirstWith(s, xs[i..], cookie)
  }

  lemma PassedNobody(s: State, xs: seq<Connection>, before: nat, cookie: Cookie, candidates: seq<Cookie>)
    requires MetAt(s, xs, before)
    ensures Passed(s, xs, before, 0, cookie, candidates)
  {
    assert xs[0..] == xs;
  }

  lemma PassNext(s: State, xs: seq<Connection>, before: nat, i: nat, cookie: Cookie, candidates: seq<Cookie>)
    requires Passed(s, xs, before, i, cookie, candidates) && i < |xs|
    ensures match CookieOf(s, xs[i])
            case None => Generate(Order(s), candidates) == None && Search(Order(s), before, cookie, candidates) == None
            case Some(k) =>
              if k != cookie then Passed(s, xs, before, i + 1, cookie, candidates)
              else Search(Order(s), before, cookie, candidates) == Some(Searched(true, candidates))
                   && FirstWith(s, xs, cookie) == xs[i]
  {
    var order := Order(s);
    FirstWithNext(s, xs, i, cookie);
    hide Order; hide Generate; hide FirstWith; hide Search;
    SearchNext(order, before + i, cookie, candidates);
  }

  lemma FirstWithNext(s: State, xs: seq<Connection>, i: nat, cookie: Cookie)
    requires i < |xs|
    ensures FirstWith(s, xs[i..], cookie) == if CookieOf(s, xs[i]) == Some(cookie) then xs[i] else FirstWith(s, xs[i + 1..], cookie)
  {
    assert xs[i..][1..] == xs[i + 1..];
  }

  lemma PassedAll(s: State, xs: seq<Connection>, before: nat, cookie: Cookie, candidates: seq<Cookie>)
    requires Passed(s, xs, before, |xs|, cookie, candidates)
    ensures Search(Order(s), before, cookie, candidates) == Search(Order(s), before + |xs|, cookie, candidates)
    ensures FirstWith(s, xs, cookie) == null
  {
  }

  // A lookup that comes to an end has found the cookie if and only if somebody has it.
  lemma LookupFinds(s: State, cookie: Cookie, candidates: seq<Cookie>)
    requires Closed(s)
    ensures var r := Search(Order(s), 0, cookie, candidates);
            && (r.Some? <==> Findable(Order(s), 0, cookie))
            && (r.Some? ==> r.value == Searched(Existing(s, cookie) != null, candidates))
  {
    SearchReturnsIff(Order(s), 0, cookie, candidates);
    FirstWithInOrder(s, s.helloed, cookie);
    FirstWithInOrder(s, s.dead, cookie);
    assert Order(s)[0..] == Order(s);
  }

  // cookie(): generated is what generateUnusedCookie would come up with.
  function Cookied(s: State, c: Connection, generated: Cookie): (t: State)
    requires c in s.conns
    ensures c in t.conns && t.conns[c].cookie.Some?
  {
    if s.conns[c].cookie.Some? then s else With(s, c, s.conns[c].(cookie := Some(generated)))
  }

  // ---------- the handshake ----------

  function PotentialMerge(s: State, cookie: Cookie): (r: (State, Connection?))
    requires Closed(s)
    ensures r.0.conns.Keys == s.conns.Keys && (r.1 == null || r.1 in s.conns)
  {
    var o := Existing(s, cookie);
    if o == null then (s, null) else (SetQueueing(DontBroadcast(s, o), o, true), o)
  }

  // The hello is read: no old connection yet, and the cookie that was supplied.
  function Begun(s: State, c: Connection, cookie: Option<Cookie>): State
    requires c in s.conns
  {
    With(s, c, s.conns[c].(old_ := null, cookie := if cookie.Some? then cookie else s.conns[c].cookie))
  }

  function Hello(s: State, c: Connection, cookie: Option<Cookie>, generated: Cookie): State
    requires Closed(s) && c in s.conns
  {
    var s2 := Begun(s, c, cookie);
    match cookie
    case None => Cookied(s2, c, generated)
    case Some(k) =>
      var (s3, o) := PotentialMerge(s2, k);
      With(s3, c, s3.conns[c].(old_ := o))
  }

  // cookie() comes to an end.
  predicate CookieReturns(s: State, c: Connection, candidates: seq<Cookie>)
  {
    CookieOf(s, c).Some? || Generate(Order(s), candidates).Some?
  }

  predicate HelloReturns(s: State, c: Connection, cookie: Option<Cookie>, candidates: seq<Cookie>)
    requires c in s.conns
  {
    match cookie
    case None => CookieReturns(s, c, candidates)
    case Some(k) => Search(Order(Begun(s, c, cookie)), 0, k, candidates).Some?
  }

  // mergeNewIoDevice on the old connection
  function Merged(s: State, o: Connection, device: Device): State
    requires o in s.conns
  {
    var s1 := With(s, o, s.conns[o].(device := device));
    var s2 := if device.known then s1 else Bad(s1, o);
    SetQueueing(Announced(s2, o), o, false)
  }

  function ThankYou(s: State, c: Connection, cookie: Cookie, generated: Cookie): State
    requires Closed(s) && c in s.conns
  {
    var s1 := Cookied(s, c, generated);
    if s1.conns[c].cookie != Some(cookie) then s1
    else
      var o := s1.conns[c].old_;
      if o == null then Announced(s1, c) else Merged(s1, o, s1.conns[c].device)
  }

  // ---------- broadcasts ----------

  predicate Within(xs: seq<Connection>, places: seq<nat>)
  {
    forall j | 0 <= j < |places| :: places[j] < |xs|
  }

  // The connections at the places that are drawn one after the other.
  function Dealt(xs: seq<Connection>, places: seq<nat>): seq<Connection>
    requires Within(xs, places)
  {
    if places == [] then [] else [xs[places[0]]] + Dealt(xs, places[1..])
  }

  function Choose(s: State, refill: seq<Connection>): (r: (State, Connection?))
  {
    var queue := if s.roundRobin == [] then refill else s.roundRobin;
    if queue == [] then (s.(roundRobin := []), null) else (s.(roundRobin := queue[1..]), queue[0])
  }

  lemma {:induction false} RemoveAllIsAll<T>(xs: seq<T>, x: T)
    requires x !in xs
    ensures RemoveAll(xs, x) == xs
  {
    if xs != [] {
      RemoveAllIsAll(xs[1..], x);
      assert [xs[0]] + xs[1..] == xs;
    }
  }

  // ---------- no operation leaves a list or a connection pointing outside ----------

  lemma WithClosed(s: State, c: Connection, x: ConnState)
    requires Closed(s)
    requires x.old_ == null || x.old_ in s.conns || x.old_ == c || (c in s.conns && x.old_ == s.conns[c].old_)
    ensures Closed(With(s, c, x))
  {
  }

  lemma ListsClosed(s: State, t: State)
    requires Closed(s) && t.conns == s.conns
    requires (forall c | c in t.helloed :: c in s.conns) && (forall c | c in t.dead :: c in s.conns)
    requires forall c | c in t.roundRobin :: c in s.conns
    ensures Closed(t)
  {
  }

  lemma IgnoringClosed(s: State, t: State)
    requires Closed(s) && t == s.(ignoringHello := t.ignoringHello)
    ensures Closed(t)
  {
  }

  lemma QueueingClosed(s: State, c: Connection, on: bool)
    requires Closed(s) && c in s.conns
    ensures Closed(SetQueueing(s, c, on)) && SetQueueing(s, c, on).conns.Keys == s.conns.Keys
  {
    WithClosed(s, c, SetQueueing(s, c, on).conns[c]);
  }

  lemma DontBroadcastClosed(s: State, c: Connection)
    requires Closed(s)
    ensures Closed(DontBroadcast(s, c))
  {
    ListsClosed(s, DontBroadcast(s, c));
  }

  lemma AnnouncedClosed(s: State, c: Connection)
    requires Closed(s) && c in s.conns
    ensures Closed(Announced(s, c))
  {
    ListsClosed(s, Announced(s, c));
  }

  lemma DeadClosed(s: State, c: Connection)
    requires Closed(s) && c in s.conns
    ensures Closed(s.(dead := s.dead + [c]))
  {
    ListsClosed(s, s.(dead := s.dead + [c]));
  }

  lemma BadClosed(s: State, c: Connection)
    requires Closed(s) && c in s.conns
    ensures Closed(Bad(s, c)) && Bad(s, c).conns.Keys == s.conns.Keys
  {
    DontBroadcastClosed(s, c);
    DeadClosed(DontBroadcast(s, c), c);
    QueueingClosed(DontBroadcast(s, c).(dead := s.dead + [c]), c, true);
  }

  lemma SameOrder(s: State, c: Connection, x: ConnState)
    requires c in s.conns && x.cookie == s.conns[c].cookie
    ensures Order(With(s, c, x)) == Order(s) && CookieOf(With(s, c, x), c) == CookieOf(s, c)
  {
  }

  // ---------- the objects ----------

  class Connection {
    const server: Server
    var hasCookie: bool
    var cookieValue: Cookie
    var oldConnectionToMergeOnto: Connection?
    var queueActionResponses: bool
    var ioDeviceToClient: Device
    var listsBuilt: nat

    constructor (server: Server, device: Device)
      ensures this.server == server && Value() == ConnState(None, null, false, device, 0)
    {
      this.server, ioDeviceToClient := server, device;
      hasCookie, cookieValue, oldConnectionToMergeOnto, queueActionResponses, listsBuilt := false, 0, null, false, 0;
    }

    function Value(): ConnState
      reads this
    {
      ConnState(if hasCookie then Some(cookieValue) else None, oldConnectionToMergeOnto, queueActionResponses,
                ioDeviceToClient, listsBuilt)
    }

    // Nothing but this connection changed since the old state.
    twostate lemma OnlyThisChanged()
      requires old(server.Valid()) && this in server.children && unchanged(server)
      requires forall c | c in server.children && c != this :: unchanged(c)
      requires oldConnectionToMergeOnto == null || oldConnectionToMergeOnto in server.children
               || oldConnectionToMergeOnto == old(oldConnectionToMergeOnto)
      ensures server.Valid() && server.Snapshot() == With(old(server.Snapshot()), this, Value())
      ensures server.Snapshot().conns.Keys == old(server.Snapshot()).conns.Keys
    {
      WithClosed(old(server.Snapshot()), this, Value());
      assert server.Snapshot().conns == old(server.Snapshot()).conns[this := Value()];
    }

    method SetQueueActionResponses(on: bool)
      requires server.Valid() && this in server.children
      modifies this`queueActionResponses, this`listsBuilt
      ensures server.Valid() && server.Snapshot() == SetQueueing(old(server.Snapshot()), this, on)
    {
      hide Closed;
      if on != queueActionResponses {
        queueActionResponses := on;
        if on {
          listsBuilt := listsBuilt + 1;
        }
      }
      OnlyThisChanged();
    }

    method SetCookie(cookie: Cookie)
      requires server.Valid() && this in server.children
      modifies this`hasCookie, this`cookieValue
      ensures server.Valid() && hasCookie && cookieValue == cookie
      ensures var s := old(server.Snapshot()); server.Snapshot() == With(s, this, s.conns[this].(cookie := Some(cookie)))
    {
      hide Closed;
      hasCookie, cookieValue := true, cookie;
      OnlyThisChanged();
    }

    // candidates: what generateCookie returns, one call after the other; left: what of it is not
    // drawn yet. Not returned: all of it is drawn and the search is still going on.
    method GetCookie(candidates: seq<Cookie>) returns (returned: bool, cookie: Cookie, left: seq<Cookie>)
      requires server.Valid() && this in server.children
      modifies server.children`hasCookie, server.children`cookieValue
      ensures server.Valid() && returned == CookieReturns(old(server.Snapshot()), this, candidates)
      ensures server.Snapshot() == if returned then Cookied(old(server.Snapshot()), this, cookie) else old(server.Snapshot())
      ensures returned ==> Value().cookie == Some(cookie)
      ensures returned ==> if old(hasCookie) then left == candidates
                           else Generate(Order(old(server.Snapshot())), candidates) == Some((cookie, left))
      decreases |candidates|, 1
    {
      hide Closed; hide Order;
      returned, left := true, candidates;
      if !hasCookie {
        returned, cookie, left := server.GenerateUnusedCookie(candidates);
        if !returned {
          return;
        }
        SetCookie(cookie);
      }
      cookie := cookieValue;
    }

    method MakeConnectionBad()
      requires server.Valid() && this in server.children
      modifies this, server
      ensures server.Valid() && server.children == old(server.children)
      ensures server.Snapshot() == Bad(old(server.Snapshot()), this)
    {
      hide Closed;
      server.DontBroadcastTo(this);
      server.AppendDeadConnectionThatMightBePickedUpLater(this);
      SetQueueActionResponses(true);
    }

    method MergeNewIoDevice(device: Device)
      requires server.Valid() && this in server.children
      modifies this, server
      ensures server.Valid() && server.children == old(server.children)
      ensures server.Snapshot() == Merged(old(server.Snapshot()), this, device)
    {
      hide Closed; hide Bad; hide Announced; hide SetQueueing;
      ioDeviceToClient := device;
      OnlyThisChanged();
      if !ioDeviceToClient.known {
        MakeConnectionBad();
      }
      server.ConnectionDoneHelloing(this);
      SetQueueActionResponses(false);
    }

    // InitialHelloFromClient: the cookie of the welcome that is sent back.
    method HandleHello(cookieFromClient: Option<Cookie>, candidates: seq<Cookie>) returns (returned: bool, welcome: Cookie)
      requires server.Valid() && this in server.children
      modifies this, server, server.children
      ensures server.Valid() && server.children == old(server.children)
      ensures returned == HelloReturns(old(server.Snapshot()), this, cookieFromClient, candidates)
      ensures returned ==> server.Snapshot() == Hello(old(server.Snapshot()), this, cookieFromClient, welcome)
      ensures returned ==> Value().cookie == Some(welcome)
      ensures !returned ==> server.Snapshot() == Begun(old(server.Snapshot()), this, cookieFromClient)
    {
      hide Closed; hide Cookied; hide PotentialMerge; hide Order;
      oldConnectionToMergeOnto := null;
      match cookieFromClient {
        case Some(k) =>
          hasCookie, cookieValue := true, k;
          OnlyThisChanged();
          returned := FindOldConnection(candidates);
          welcome := cookieValue;
        case None =>
          OnlyThisChanged();
          SameOrder(old(server.Snapshot()), this, Value());
          var left;
          returned, welcome, left := GetCookie(candidates);
      }
    }

    method FindOldConnection(candidates: seq<Cookie>) returns (returned: bool)
      requires server.Valid() && this in server.children && hasCookie
      modifies this, server, server.children
      ensures server.Valid() && server.children == old(server.children)
      ensures hasCookie && cookieValue == old(cookieValue)
      ensures returned == Search(Order(old(server.Snapshot())), 0, old(cookieValue), candidates).Some?
      ensures returned ==> var (s, o) := PotentialMerge(old(server.Snapshot()), old(cookieValue));
                           server.Snapshot() == With(s, this, s.conns[this].(old_ := o))
      ensures !returned ==> server.Snapshot() == old(server.Snapshot())
    {
      hide Closed; hide Order; hide PotentialMerge;
      var o;
      returned, o := server.PotentialMergeCaseAsCookieIsSupplied(this, candidates);
      if returned {
        SetOldConnection(o);
      }
    }

    method SetOldConnection(o: Connection?)
      requires server.Valid() && this in server.children && (o == null || o in server.children)
      modifies this`oldConnectionToMergeOnto
      ensures server.Valid()
      ensures var s := old(server.Snapshot()); server.Snapshot() == With(s, this, s.conns[this].(old_ := o))
    {
      hide Closed;
      oldConnectionToMergeOnto := o;
      OnlyThisChanged();
    }

    // ThankYouForWelcomingMeFromClient: whether the client may start sending.
    method HandleThankYou(cookieForConfirming: Cookie, candidates: seq<Cookie>)
      returns (returned: bool, okStartSending: bool, ghost generated: Cookie)
      requires server.Valid() && this in server.children
      modifies this, server, server.children
      ensures server.Valid() && server.children == old(server.children)
      ensures returned == CookieReturns(old(server.Snapshot()), this, candidates)
      ensures returned ==> server.Snapshot() == ThankYou(old(server.Snapshot()), this, cookieForConfirming, generated)
      ensures returned ==> CookieOf(Cookied(old(server.Snapshot()), this, generated), this) == Some(generated)
      ensures returned ==> (okStartSending <==> generated == cookieForConfirming)
      ensures !returned ==> server.Snapshot() == old(server.Snapshot()) && !okStartSending
    {
      hide Order; hide Merged;
      var cookie, left;
      returned, cookie, left := GetCookie(candidates);
      generated, okStartSending := cookie, false;
      if !returned || cookieForConfirming != cookie {
        return;
      }
      okStartSending := true;
      var o := oldConnectionToMergeOnto;
      if o != null {
        o.MergeNewIoDevice(ioDeviceToClient);
      } else {
        server.ConnectionDoneHelloing(this);
      }
    }
  }

  class Server {
    // the QObject children
    var children: set<Connection>
    var connectionsIgnoringHelloState: seq<Connection>
    var helloedConnections: seq<Connection>
    var deadConnections: seq<Connection>
    var roundRobinQueue: seq<Connection>

    constructor ()
      ensures Valid() && children == {} && Snapshot() == State(map[], [], [], [], [])
    {
      children, connectionsIgnoringHelloState, helloedConnections, deadConnections, roundRobinQueue := {}, [], [], [], [];
    }

    ghost function Snapshot(): State
      reads this, children
    {
      State(map c | c in children :: c.Value(), connectionsIgnoringHelloState, helloedConnections, deadConnections, roundRobinQueue)
    }

    ghost predicate Valid()
      reads this, children
    {
      Closed(Snapshot()) && forall c | c in children :: c.server == this
    }

    method HandleNewClientConnected(device: Device) returns (c: Connection)
      requires Valid()
      modifies this
      ensures Valid() && fresh(c) && children == old(children) + {c}
      ensures var s := old(Snapshot());
              Snapshot() == With(s, c, ConnState(None, null, false, device, 0)).(ignoringHello := s.ignoringHello + [c])
    {
      c := new Connection(this, device);
      hide Closed;
      ghost var s := Snapshot();
      children := children + {c};
      connectionsIgnoringHelloState := connectionsIgnoringHelloState + [c];
      WithClosed(s, c, c.Value());
      assert Snapshot().conns == With(s, c, c.Value()).conns;
      IgnoringClosed(With(s, c, c.Value()), Snapshot());
    }

    method ReportConnectionDestroying(c: Connection)
      requires Valid()
      modifies this`connectionsIgnoringHelloState
      ensures Valid()
      ensures var s := old(Snapshot()); Snapshot() == s.(ignoringHello := RemoveAll(s.ignoringHello, c))
    {
      connectionsIgnoringHelloState := RemoveAll(connectionsIgnoringHelloState, c);
    }

    method ConnectionDoneHelloing(c: Connection)
      requires Valid() && c in children
      modifies this`helloedConnections
      ensures Valid() && Snapshot() == Announced(old(Snapshot()), c)
    {
      AnnouncedClosed(Snapshot(), c);
      helloedConnections := helloedConnections + [c];
    }

    method AppendDeadConnectionThatMightBePickedUpLater(c: Connection)
      requires Valid() && c in children
      modifies this`deadConnections
      ensures Valid()
      ensures var s := old(Snapshot()); Snapshot() == s.(dead := s.dead + [c])
    {
      deadConnections := deadConnections + [c];
    }

    method DontBroadcastTo(c: Connection)
      requires Valid()
      modifies this`helloedConnections, this`roundRobinQueue
      ensures Valid() && Snapshot() == DontBroadcast(old(Snapshot()), c)
    {
      hide Closed; hide RemoveAll; hide Count;
      DontBroadcastClosed(Snapshot(), c);
      var numRemoved := Count(helloedConnections, c);
      helloedConnections := RemoveAll(helloedConnections, c);
      if numRemoved == 1 {
        if c in roundRobinQueue {
          roundRobinQueue := RemoveAll(roundRobinQueue, c);
        } else {
          RemoveAllIsAll(roundRobinQueue, c);
        }
      }
      assert Snapshot().conns == old(Snapshot().conns);
    }

    // Asking a connection whose turn it is in a search changes nothing: either it has a cookie, or
    // the search it starts never ends.
    method Ask(c: Connection, candidates: seq<Cookie>) returns (returned: bool, k: Cookie, left: seq<Cookie>)
      requires Valid() && c in children
      requires CookieOf(Snapshot(), c) == None ==> Generate(Order(Snapshot()), candidates) == None
      modifies children`hasCookie, children`cookieValue
      ensures Valid() && Snapshot() == old(Snapshot())
      ensures CookieOf(Snapshot(), c) == if returned then Some(k) else None
      ensures returned ==> left == candidates
      decreases |candidates|, 2
    {
      assert Snapshot().conns[c] == c.Value();
      hide Closed; hide Order; hide Generate;
      returned, k, left := c.GetCookie(candidates);
    }

    // Asks the connections for their cookies, one after the other.
    method SearchFrom(xs: seq<Connection>, ghost before: nat, cookie: Cookie, candidates: seq<Cookie>)
      returns (returned: bool, r: Connection?, left: seq<Cookie>)
      requires Valid() && MetAt(Snapshot(), xs, before) && forall c | c in xs :: c in children
      modifies children`hasCookie, children`cookieValue
      ensures Valid() && Snapshot() == old(Snapshot())
      ensures returned && r == null ==> left == candidates && Search(Order(Snapshot()), before, cookie, candidates)
                                                              == Search(Order(Snapshot()), before + |xs|, cookie, candidates)
      ensures returned && r != null ==> Search(Order(Snapshot()), before, cookie, candidates) == Some(Searched(true, left))
      ensures returned ==> r == FirstWith(Snapshot(), xs, cookie)
      ensures !returned ==> Search(Order(Snapshot()), before, cookie, candidates) == None
      decreases |candidates|, 3
    {
      ghost var s := Snapshot();
      PassedNobody(s, xs, before, cookie, candidates);
      hide *;
      r, left := null, candidates;
      var i := 0;
      while i < |xs|
        invariant 0 <= i <= |xs| && left == candidates && Valid() && Snapshot() == s
        invariant Passed(s, xs, before, i, cookie, candidates)
      {
        PassNext(s, xs, before, i, cookie, candidates);
        var k;
        returned, k, left := Ask(xs[i], candidates);
        if !returned {
          return;
        }
        if k == cookie {
          return true, xs[i], left;
        }
        i := i + 1;
      }
      PassedAll(s, xs, before, cookie, candidates);
      return true, null, left;
    }

    method GetExistingConnectionUsingCookie(cookie: Cookie, candidates: seq<Cookie>)
      returns (returned: bool, r: Connection?, left: seq<Cookie>)
      requires Valid()
      modifies children`hasCookie, children`cookieValue
      ensures Valid() && Snapshot() == old(Snapshot())
      ensures Search(Order(Snapshot()), 0, cookie, candidates) == if returned then Some(Searched(r != null, left)) else None
      ensures returned ==> r == Existing(Snapshot(), cookie)
      decreases |candidates|, 4
    {
      ghost var s := Snapshot();
      HelloedThenDead(s, cookie, candidates);
      hide Order; hide Search; hide MetAt;
      returned, r, left := SearchFrom(helloedConnections, 0, cookie, candidates);
      if returned && r == null {
        returned, r, left := SearchFrom(deadConnections, |helloedConnections|, cookie, candidates);
      }
    }

    method GenerateUnusedCookie(candidates: seq<Cookie>) returns (returned: bool, cookie: Cookie, left: seq<Cookie>)
      requires Valid()
      modifies children`hasCookie, children`cookieValue
      ensures Valid() && Snapshot() == old(Snapshot())
      ensures Generate(Order(Snapshot()), candidates) == if returned then Some((cookie, left)) else None
      decreases |candidates|, 0
    {
      hide Closed; hide Order;
      ghost var s := Snapshot();
      returned, cookie, left := false, 0, candidates;
      while left != []
        invariant Valid() && Snapshot() == s && |left| <= |candidates|
        invariant Generate(Order(s), left) == Generate(Order(s), candidates)
        decreases |left|
      {
        cookie := left[0];
        var existing;
        returned, existing, left := GetExistingConnectionUsingCookie(cookie, left[1..]);
        if !returned || existing == null {
          return;
        }
      }
      returned := false;
    }

    method PotentialMergeCaseAsCookieIsSupplied(newConnection: Connection, candidates: seq<Cookie>)
      returns (returned: bool, o: Connection?)
      requires Valid() && newConnection in children && newConnection.hasCookie
      modifies this`helloedConnections, this`roundRobinQueue, children
      ensures Valid() && newConnection.hasCookie && newConnection.cookieValue == old(newConnection.cookieValue)
      ensures returned == Search(Order(old(Snapshot())), 0, old(newConnection.cookieValue), candidates).Some?
      ensures returned ==> (Snapshot(), o) == PotentialMerge(old(Snapshot()), old(newConnection.cookieValue))
      ensures !returned ==> Snapshot() == old(Snapshot())
    {
      hide Closed; hide DontBroadcast; hide SetQueueing; hide Order;
      var left;
      returned, o, left := GetExistingConnectionUsingCookie(newConnection.cookieValue, candidates);
      assert newConnection.Value() == Snapshot().conns[newConnection] == old(Snapshot().conns[newConnection]);
      if returned && o != null {
        DontBroadcastTo(o);
        o.SetQueueActionResponses(true);
      }
    }

    // qrand() % length is any place of the list of remaining places.
    method EnqueueInRandomOrder(random: seq<nat>) returns (ghost dealt: seq<Connection>)
      requires |random| >= |helloedConnections|
      modifies this`roundRobinQueue
      ensures roundRobinQueue == old(roundRobinQueue) + dealt && multiset(dealt) == multiset(helloedConnections)
    {
      var indexesRemaining: seq<nat> := seq(|helloedConnections|, i => i);
      dealt := [];
      NothingDealt(helloedConnections, indexesRemaining);
      hide *;
      while |indexesRemaining| > 0
        invariant |indexesRemaining| <= |helloedConnections| && roundRobinQueue == old(roundRobinQueue) + dealt
        invariant Dealing(helloedConnections, indexesRemaining, dealt)
        decreases |indexesRemaining|
      {
        var k := random[|helloedConnections| - |indexesRemaining|] % |indexesRemaining|;
        DealNext(helloedConnections, indexesRemaining, dealt, k);
        var chosen := indexesRemaining[k];
        indexesRemaining := indexesRemaining[..k] + indexesRemaining[k + 1..];
        roundRobinQueue := roundRobinQueue + [helloedConnections[chosen]];
        dealt := dealt + [helloedConnections[chosen]];
      }
      AllDealt(helloedConnections, indexesRemaining, dealt);
    }

    method RefillRoundRobinFromHellodConnections(random: seq<nat>) returns (ghost dealt: seq<Connection>)
      requires Valid() && |random| >= |helloedConnections|
      modifies this`roundRobinQueue
      ensures Valid() && Snapshot() == old(Snapshot()).(roundRobin := old(roundRobinQueue) + dealt)
      ensures multiset(dealt) == multiset(helloedConnections)
    {
      hide Closed;
      dealt := EnqueueInRandomOrder(random);
      SameConnections(old(Snapshot()), dealt);
      assert Snapshot().conns == old(Snapshot().conns);
    }

    method GetSuitableClientConnectionNextInRoundRobin(random: seq<nat>) returns (c: Connection?, ghost refill: seq<Connection>)
      requires Valid() && |random| >= |helloedConnections|
      modifies this`roundRobinQueue
      ensures Valid() && (Snapshot(), c) == Choose(old(Snapshot()), refill)
      ensures multiset(refill) == multiset(helloedConnections)
    {
      refill := helloedConnections;
      if |roundRobinQueue| < 1 {
        refill := RefillRoundRobinFromHellodConnections(random);
        assert [] + refill == refill;
      }
      if |roundRobinQueue| > 0 {
        c := roundRobinQueue[0];
        roundRobinQueue := roundRobinQueue[1..];
      } else {
        c := null;
      }
      assert Snapshot().conns == old(Snapshot().conns);
      ListsClosed(old(Snapshot()), Snapshot());
    }
  }

  lemma DealtStep(xs: seq<Connection>, i: nat, rest: seq<nat>)
    requires i < |xs| && Within(xs, rest)
    ensures Within(xs, [i] + rest) && Dealt(xs, [i] + rest) == [xs[i]] + Dealt(xs, rest)
  {
    assert ([i] + rest)[1..] == rest;
  }

  lemma {:induction false} DealtAppend(xs: seq<Connection>, p: seq<nat>, q: seq<nat>)
    requires Within(xs, p) && Within(xs, q)
    ensures Within(xs, p + q) && Dealt(xs, p + q) == Dealt(xs, p) + Dealt(xs, q)
    decreases |p|
  {
    hide Dealt;
    if p == [] {
      assert p + q == q;
      DealtNothing(xs, p);
    } else {
      assert p + q == [p[0]] + (p[1..] + q);
      DealtAppend(xs, p[1..], q);
      DealtStep(xs, p[0], p[1..] + q);
      DealtStep(xs, p[0], p[1..]);
      assert p == [p[0]] + p[1..];
      assert [xs[p[0]]] + (Dealt(xs, p[1..]) + Dealt(xs, q)) == [xs[p[0]]] + Dealt(xs, p[1..]) + Dealt(xs, q);
    }
  }

  lemma DealtWithout(xs: seq<Connection>, places: seq<nat>, k: nat)
    requires k < |places| && Within(xs, places)
    ensures Within(xs, places[..k] + places[k + 1..])
    ensures multiset(Dealt(xs, places)) == multiset(Dealt(xs, places[..k] + places[k + 1..])) + multiset{xs[places[k]]}
  {
    hide Dealt;
    var p, q := places[..k], places[k + 1..];
    assert places == p + ([places[k]] + q);
    DealtAppend(xs, [places[k]], q);
    DealtAppend(xs, p, [places[k]] + q);
    DealtAppend(xs, p, q);
    DealtOne(xs, places[k]);
  }

  // What was dealt and what is still to be dealt make up the list.
  ghost predicate Dealing(xs: seq<Connection>, places: seq<nat>, dealt: seq<Connection>)
  {
    Within(xs, places) && multiset(dealt) + multiset(Dealt(xs, places)) == multiset(xs)
  }

  lemma NothingDealt(xs: seq<Connection>, places: seq<nat>)
    requires |places| == |xs| && forall i | 0 <= i < |places| :: places[i] == i
    ensures Dealing(xs, places, [])
  {
    PlacesFrom(xs, 0, places);
  }

  lemma DealNext(xs: seq<Connection>, places: seq<nat>, dealt: seq<Connection>, k: nat)
    requires Dealing(xs, places, dealt) && k < |places|
    ensures places[k] < |xs| && Dealing(xs, places[..k] + places[k + 1..], dealt + [xs[places[k]]])
  {
    DealtWithout(xs, places, k);
  }

  lemma AllDealt(xs: seq<Connection>, places: seq<nat>, dealt: seq<Connection>)
    requires Dealing(xs, places, dealt) && places == []
    ensures multiset(dealt) == multiset(xs)
  {
  }

  lemma DealtNothing(xs: seq<Connection>, places: seq<nat>)
    requires places == []
    ensures Within(xs, places) && Dealt(xs, places) == []
  {
  }

  lemma SameConnections(s: State, dealt: seq<Connection>)
    requires Closed(s) && multiset(dealt) == multiset(s.helloed)
    ensures Closed(s.(roundRobin := s.roundRobin + dealt))
  {
    forall c | c in dealt ensures c in s.helloed {
      assert c in multiset(dealt);
    }
    ListsClosed(s, s.(roundRobin := s.roundRobin + dealt));
  }

  lemma DealtOne(xs: seq<Connection>, i: nat)
    requires i < |xs|
    ensures Dealt(xs, [i]) == [xs[i]]
  {
    assert [i][1..] == [];
  }

  lemma {:induction false} PlacesFrom(xs: seq<Connection>, from: nat, places: seq<nat>)
    requires from <= |xs| && Within(xs, places) && |places| == |xs| - from && forall i | 0 <= i < |places| :: places[i] == from + i
    ensures Dealt(xs, places) == xs[from..]
    decreases |xs| - from
  {
    if from < |xs| {
      PlacesFrom(xs, from + 1, places[1..]);
    }
  }
}
