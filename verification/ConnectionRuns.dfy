// What holds in every run of the connection registry: fair dealing of broadcasts, the merge of a
// returning client, how often lists are built, and when a handshake comes to an end at all.
module ConnectionRuns {
  import opened Wrappers
  import opened Lists
  import opened CookieSearch
  import opened ConnectionRegistry

  // One entry into the server from the event loop.
  datatype Event =
    | NewClient(c: Connection, device: Device)
    | HelloFrom(c: Connection, cookie: Option<Cookie>, generated: Cookie)
    | ThankYouFrom(c: Connection, confirmed: Cookie, generated: Cookie)
    | WentBad(c: Connection)
    | Destroyed(c: Connection)
    | Broadcast(refill: seq<Connection>)

  // cookie() has a cookie to return, or comes up with k.
  ghost predicate GetsCookie(s: State, c: Connection, k: Cookie)
  {
    CookieOf(s, c) == None ==> Searchable(s) && Unused(s, k)
  }

  // A hello with a cookie is only ever over if its search meets nobody without a cookie on the way.
  ghost predicate Possible(s: State, e: Event)
  {
    && Closed(s)
    && match e
       case NewClient(c, _) => c !in s.conns
       case HelloFrom(c, Some(k), _) => c in s.conns && Findable(Order(Begun(s, c, Some(k))), 0, k)
       case HelloFrom(c, None, k) => c in s.conns && GetsCookie(s, c, k)
       case ThankYouFrom(c, _, k) => c in s.conns && GetsCookie(s, c, k)
       case WentBad(c) => c in s.conns
       case Destroyed(c) => c in s.conns
       case Broadcast(refill) => multiset(refill) == multiset(s.helloed)
  }

  function Step(s: State, e: Event): State
    requires Possible(s, e)
  {
    match e
    case NewClient(c, d) => With(s, c, ConnState(None, null, false, d, 0)).(ignoringHello := s.ignoringHello + [c])
    case HelloFrom(c, cookie, k) => Hello(s, c, cookie, k)
    case ThankYouFrom(c, confirmed, k) => ThankYou(s, c, confirmed, k)
    case WentBad(c) => Bad(s, c)
    case Destroyed(c) => s.(ignoringHello := RemoveAll(s.ignoringHello, c))
    case Broadcast(refill) => Choose(s, refill).0
  }

  // ---------- what each operation does to the lists ----------

  // The connection an accepted thank you puts on the list of helloed connections.
  function Announcing(s: State, e: Event): Connection?
    requires Possible(s, e)
  {
    match e
    case ThankYouFrom(c, confirmed, k) =>
      if Cookied(s, c, k).conns[c].cookie != Some(confirmed) then null
      else if s.conns[c].old_ == null then c
      else s.conns[c].old_
    case _ => null
  }

  // The connection that is taken off the lists.
  function Removing(s: State, e: Event): Connection?
    requires Possible(s, e)
  {
    match e
    case HelloFrom(c, Some(k), _) =>
      Existing(Begun(s, c, Some(k)), k)
    case ThankYouFrom(c, confirmed, k) =>
      var a := Announcing(s, e);
      if a != null && s.conns[c].old_ != null && !s.conns[c].device.known then a else null
    case WentBad(c) => c
    case _ => null
  }

  function Without(s: State, c: Connection?): State { if c == null then s else DontBroadcast(s, c) }

  function Plus(s: State, c: Connection?): State { if c == null then s else Announced(s, c) }

  // Every event first takes at most one connection off the lists and then adds at most one.
  lemma ListsOfStep(s: State, e: Event)
    requires Possible(s, e) && !e.Broadcast?
    ensures var t := Plus(Without(s, Removing(s, e)), Announcing(s, e));
            Step(s, e).helloed == t.helloed && Step(s, e).roundRobin == t.roundRobin
  {
    hide RemoveAll; hide Count; hide Existing; hide Closed;
  }

  // ---------- fair dealing ----------

  // chosen: what was dealt since the last refill; stayed: the connections of that refill that
  // were never taken off the list since.
  datatype Observed = Observed(state: State, batch: seq<Connection>, chosen: seq<Connection>, stayed: set<Connection>)

  function Observe(o: Observed, e: Event): Observed
    requires Possible(o.state, e)
  {
    var s := o.state;
    var t := Step(s, e);
    match e
    case Broadcast(refill) =>
      var dealt := if Choose(s, refill).1 == null then [] else [Choose(s, refill).1];
      if s.roundRobin == [] then Observed(t, refill, dealt, set c | c in refill)
      else Observed(t, o.batch, o.chosen + dealt, o.stayed)
    case _ =>
      var r := Removing(s, e);
      Observed(t, o.batch, o.chosen, if r == null then o.stayed else o.stayed - {r})
  }

  // A connection is announced only while it is not listed.
  ghost predicate Polite(s: State, e: Event)
  {
    && Possible(s, e)
    && var a := Announcing(s, e); a != null ==> a !in Without(s, Removing(s, e)).helloed
  }

  ghost predicate Fair(o: Observed)
  {
    && Distinct(o.state.helloed) && Distinct(o.batch) && Distinct(o.chosen + o.state.roundRobin)
    && (forall c | c in o.state.roundRobin :: c in o.state.helloed)
    && (forall c | c in o.chosen + o.state.roundRobin :: c in o.batch)
    && (forall c | c in o.stayed :: c in o.batch && (c in o.chosen || c in o.state.roundRobin))
  }

  lemma {:induction false} CountOne(xs: seq<Connection>, c: Connection)
    requires Distinct(xs)
    ensures Count(xs, c) == if c in xs then 1 else 0
  {
    if xs != [] {
      assert forall i | 0 <= i < |xs[1..]| :: xs[1..][i] == xs[i + 1];
      CountOne(xs[1..], c);
    }
  }

  lemma {:induction false} RemovedDistinct(front: seq<Connection>, xs: seq<Connection>, c: Connection)
    requires Distinct(front + xs)
    ensures Distinct(front + RemoveAll(xs, c))
    decreases |xs|
  {
    if xs != [] {
      if xs[0] == c {
        var ys := front + xs[1..];
        assert forall i | 0 <= i < |ys| :: ys[i] == (front + xs)[if i < |front| then i else i + 1];
        RemovedDistinct(front, xs[1..], c);
        assert [] + RemoveAll(xs[1..], c) == RemoveAll(xs[1..], c);
      } else {
        assert front + [xs[0]] + xs[1..] == front + xs;
        RemovedDistinct(front + [xs[0]], xs[1..], c);
        assert front + [xs[0]] + RemoveAll(xs[1..], c) == front + RemoveAll(xs, c);
      }
    }
  }

  lemma RemovalIsFair(o: Observed, c: Connection)
    requires Fair(o)
    ensures Fair(o.(state := DontBroadcast(o.state, c), stayed := o.stayed - {c}))
  {
    var s := o.state;
    CountOne(s.helloed, c);
    RemovedDistinct([], s.helloed, c);
    assert [] + s.helloed == s.helloed && [] + RemoveAll(s.helloed, c) == RemoveAll(s.helloed, c);
    RemovedDistinct(o.chosen, s.roundRobin, c);
  }

  lemma AnnouncementIsFair(o: Observed, c: Connection)
    requires Fair(o) && c !in o.state.helloed
    ensures Fair(o.(state := Announced(o.state, c)))
  {
  }

  lemma SameListsFair(o: Observed, t: State)
    requires Fair(o) && t.helloed == o.state.helloed && t.roundRobin == o.state.roundRobin
    ensures Fair(o.(state := t))
  {
  }

  lemma ShuffleIsDistinct(xs: seq<Connection>, ys: seq<Connection>)
    requires Distinct(xs) && multiset(xs) == multiset(ys)
    ensures Distinct(ys) && (forall c | c in ys :: c in xs)
  {
    forall c | c in ys ensures c in xs {
      assert c in multiset(ys);
    }
    forall i, j | 0 <= i < j < |ys| ensures ys[i] != ys[j] {
      if ys[i] == ys[j] {
        CountTwice(ys, i, j);
        CountOnce(xs, ys[i]);
      }
    }
  }

  lemma CountTwice(ys: seq<Connection>, i: nat, j: nat)
    requires i < j < |ys| && ys[i] == ys[j]
    ensures multiset(ys)[ys[i]] >= 2
  {
    var rest := ys[..j] + ys[j + 1..];
    assert ys == ys[..j] + [ys[j]] + ys[j + 1..];
    assert multiset(ys) == multiset(rest) + multiset{ys[j]};
    assert rest[i] == ys[i];
    assert ys[i] in multiset(rest);
  }

  lemma {:induction false} CountOnce(xs: seq<Connection>, c: Connection)
    requires Distinct(xs)
    ensures multiset(xs)[c] <= 1
  {
    if xs != [] {
      assert xs == [xs[0]] + xs[1..];
      assert forall i | 0 <= i < |xs[1..]| :: xs[1..][i] == xs[i + 1];
      CountOnce(xs[1..], c);
      if c == xs[0] {
        assert c !in xs[1..];
        assert c !in multiset(xs[1..]);
      }
    }
  }

  lemma BroadcastIsFair(o: Observed, refill: seq<Connection>)
    requires Fair(o) && Possible(o.state, Broadcast(refill))
    ensures Fair(Observe(o, Broadcast(refill)))
  {
    var s, p := o.state, Observe(o, Broadcast(refill));
    if s.roundRobin == [] {
      ShuffleIsDistinct(s.helloed, refill);
      if refill != [] {
        assert p.chosen + p.state.roundRobin == refill;
      }
    } else {
      assert p.chosen + p.state.roundRobin == o.chosen + s.roundRobin;
    }
  }

  lemma StepIsFair(o: Observed, e: Event)
    requires Fair(o) && Polite(o.state, e)
    ensures Fair(Observe(o, e))
  {
    hide Fair;
    if e.Broadcast? {
      BroadcastIsFair(o, e.refill);
    } else {
      var s, r, a := o.state, Removing(o.state, e), Announcing(o.state, e);
      ListsOfStep(s, e);
      var o1 := if r == null then o else o.(state := DontBroadcast(s, r), stayed := o.stayed - {r});
      if r != null { RemovalIsFair(o, r); }
      var o2 := o1.(state := Plus(o1.state, a));
      if a != null { AnnouncementIsFair(o1, a); }
      SameListsFair(o2, Step(s, e));
    }
  }

  ghost predicate PoliteRun(o: Observed, es: seq<Event>)
    decreases |es|
  {
    es == [] || (Polite(o.state, es[0]) && PoliteRun(Observe(o, es[0]), es[1..]))
  }

  function Run(o: Observed, es: seq<Event>): Observed
    requires PoliteRun(o, es)
    decreases |es|
  {
    if es == [] then o else Run(Observe(o, es[0]), es[1..])
  }

  const EMPTY: State := State(map[], [], [], [], [])

  lemma {:induction false} FairFrom(o: Observed, es: seq<Event>)
    requires Fair(o) && PoliteRun(o, es)
    ensures Fair(Run(o, es))
    decreases |es|
  {
    if es != [] {
      StepIsFair(o, es[0]);
      FairFrom(Observe(o, es[0]), es[1..]);
    }
  }

  // In every run: no connection is listed or queued twice, only listed connections are queued,
  // between two refills nobody is chosen twice, and at the moment a refill is due everybody who
  // stayed listed since the last one has been chosen exactly once.
  lemma EveryRunIsFair(es: seq<Event>)
    requires PoliteRun(Observed(EMPTY, [], [], {}), es)
    ensures var o := Run(Observed(EMPTY, [], [], {}), es);
            && Distinct(o.state.helloed) && Distinct(o.state.roundRobin) && Distinct(o.chosen)
            && (forall c | c in o.state.roundRobin :: c in o.state.helloed)
            && (forall c | c in o.chosen :: c in o.batch)
            && (o.state.roundRobin == [] ==> forall c | c in o.stayed :: c in o.chosen && Count(o.chosen, c) == 1)
  {
    var start := Observed(EMPTY, [], [], {});
    FairFrom(start, es);
    var o := Run(start, es);
    hide Run; hide PoliteRun;
    DistinctParts(o.chosen, o.state.roundRobin);
    forall c | c in o.chosen ensures c in o.batch && Count(o.chosen, c) == 1 {
      assert c in o.chosen + o.state.roundRobin;
      CountOne(o.chosen, c);
    }
  }

  lemma DistinctParts(xs: seq<Connection>, ys: seq<Connection>)
    requires Distinct(xs + ys)
    ensures Distinct(xs) && Distinct(ys)
  {
    var all := xs + ys;
    forall i, j | 0 <= i < j < |xs| ensures xs[i] != xs[j] {
      assert all[i] != all[j];
    }
    forall i, j | 0 <= i < j < |ys| ensures ys[i] != ys[j] {
      assert all[|xs| + i] != all[|xs| + j];
    }
  }

  // A step that is no broadcast keeps the list free of duplicates if and only if it is polite.
  lemma DistinctIffPolite(o: Observed, e: Event)
    requires Fair(o) && Possible(o.state, e) && !e.Broadcast?
    ensures Distinct(Step(o.state, e).helloed) <==> Polite(o.state, e)
  {
    if Polite(o.state, e) {
      StepIsFair(o, e);
    } else {
      var t, a := Without(o.state, Removing(o.state, e)), Announcing(o.state, e);
      ListsOfStep(o.state, e);
      var i :| 0 <= i < |t.helloed| && t.helloed[i] == a;
      assert Step(o.state, e).helloed == t.helloed + [a];
      assert Step(o.state, e).helloed[i] == Step(o.state, e).helloed[|t.helloed|];
    }
  }

  // The events lead from s to t.
  ghost predicate Leads(s: State, es: seq<Event>, t: State)
    decreases |es|
  {
    if es == [] then s == t else Possible(s, es[0]) && Leads(Step(s, es[0]), es[1..], t)
  }

  lemma {:induction false} LeadsOn(s: State, es: seq<Event>, t: State, e: Event)
    requires Leads(s, es, t) && Possible(t, e)
    ensures Leads(s, es + [e], Step(t, e))
    decreases |es|
  {
    if es == [] {
      assert [e][1..] == [];
    } else {
      assert (es + [e])[1..] == es[1..] + [e];
      LeadsOn(Step(s, es[0]), es[1..], t, e);
    }
  }

  // c is listed last, with the cookie k, and everybody searched has a cookie.
  ghost predicate JoinedLast(s: State, t: State, c: Connection, k: Cookie)
  {
    && Closed(t) && Searchable(t) && t.helloed == s.helloed + [c] && t.roundRobin == s.roundRobin && t.dead == s.dead
    && t.conns.Keys == s.conns.Keys + {c} && t.conns[c].cookie == Some(k) && t.conns[c].old_ == null
    && forall d | d in s.conns :: t.conns[d] == s.conns[d]
  }

  // A new client is welcomed.
  lemma ClientJoins(s: State, es: seq<Event>, t: State, c: Connection, device: Device, k: Cookie)
    returns (es': seq<Event>, t': State)
    requires Leads(s, es, t) && Closed(t) && c !in t.conns && Searchable(t) && Unused(t, k)
    ensures Leads(s, es', t') && JoinedLast(t, t', c, k)
  {
    hide Leads;
    var e1, e2, e3 := NewClient(c, device), HelloFrom(c, None, k), ThankYouFrom(c, k, k);
    var t1 := Step(t, e1);
    LeadsOn(s, es, t, e1);
    StepClosed(t, e1);
    StillSearchable(t, t1);
    var t2 := Step(t1, e2);
    LeadsOn(s, es + [e1], t1, e2);
    StepClosed(t1, e2);
    StillSearchable(t1, t2);
    t' := Step(t2, e3);
    LeadsOn(s, es + [e1] + [e2], t2, e3);
    StepClosed(t2, e3);
    assert t' == Announced(t2, c) && CookieOf(t', c) == Some(k);
    JoinedSearchable(t2, c);
    es' := es + [e1] + [e2] + [e3];
  }

  lemma StillSearchable(s: State, t: State)
    requires Searchable(s) && Closed(s) && t.helloed == s.helloed && t.dead == s.dead
    requires forall c | c in s.conns :: c in t.conns && (s.conns[c].cookie.Some? ==> t.conns[c].cookie == s.conns[c].cookie)
    ensures Searchable(t) && forall k: Cookie :: Unused(t, k) <==> Unused(s, k)
  {
  }

  lemma JoinedSearchable(s: State, c: Connection)
    requires Searchable(s) && CookieOf(s, c).Some?
    ensures Searchable(Announced(s, c))
  {
    forall d | d in Announced(s, c).helloed + s.dead ensures CookieOf(s, d).Some? {
      assert d in s.helloed + s.dead || d == c;
    }
  }

  // Two clients, a broadcast to the first of them, a second thank you of the other one, and its
  // end: it is still in the queue and the next broadcast goes to it.
  lemma SecondThankYou(c: Connection, d: Connection, device: Device) returns (es: seq<Event>, t: State)
    requires c != d
    ensures Leads(EMPTY, es, t) && t.helloed == [c] && t.roundRobin == [d] && Choose(t, []).1 == d
  {
    hide Leads; hide JoinedLast; hide Closed; hide Searchable;
    StartIsSearchable();
    es, t := ClientJoins(EMPTY, [], EMPTY, c, device, 1);
    Newcomer(EMPTY, t, c, d, 1, 2);
    var s := t;
    es, t := ClientJoins(EMPTY, es, t, d, device, 2);
    BothListed(EMPTY, s, t, c, d, 1, 2);
    var e1, e2, e3 := Broadcast([c, d]), ThankYouFrom(d, 2, 2), WentBad(d);
    var t1 := Step(t, e1);
    LeadsOn(EMPTY, es, t, e1);
    StepClosed(t, e1);
    var t2 := Step(t1, e2);
    LeadsOn(EMPTY, es + [e1], t1, e2);
    StepClosed(t1, e2);
    LeadsOn(EMPTY, es + [e1] + [e2], t2, e3);
    t := Step(t2, e3);
    assert t2.helloed == [c, d, d] && t2.roundRobin == [d];
    ListedTwice(c, d);
    es := es + [e1] + [e2] + [e3];
  }

  lemma StartIsSearchable()
    ensures Leads(EMPTY, [], EMPTY) && Closed(EMPTY) && Searchable(EMPTY) && forall k: Cookie :: Unused(EMPTY, k)
  {
  }

  lemma Newcomer(s: State, t: State, c: Connection, d: Connection, k: Cookie, j: Cookie)
    requires JoinedLast(s, t, c, k) && s == EMPTY && c != d && k != j
    ensures Closed(t) && Searchable(t) && d !in t.conns && Unused(t, j)
  {
  }

  lemma BothListed(r: State, s: State, t: State, c: Connection, d: Connection, k: Cookie, j: Cookie)
    requires JoinedLast(r, s, c, k) && JoinedLast(s, t, d, j) && r == EMPTY
    ensures Closed(t) && t.helloed == [c, d] && t.roundRobin == [] && c in t.conns && d in t.conns
    ensures t.conns[d].cookie == Some(j) && t.conns[d].old_ == null
  {
  }

  lemma ListedTwice(c: Connection, d: Connection)
    requires c != d
    ensures RemoveAll([c, d, d], d) == [c] && Count([c, d, d], d) == 2
  {
    var one, two := [d], [d, d];
    assert one[1..] == [] && two[1..] == one && [c, d, d][1..] == two;
    assert Count(one, d) == 1 && RemoveAll(one, d) == [];
    assert Count(two, d) == 2 && RemoveAll(two, d) == [];
    assert [c] + RemoveAll(two, d) == [c];
  }

  // ---------- nothing ever points outside ----------

  lemma MergedClosed(s: State, o: Connection, device: Device)
    requires Closed(s) && o in s.conns
    ensures Closed(Merged(s, o, device))
  {
    hide Closed; hide Bad; hide Announced; hide SetQueueing;
    var s1 := With(s, o, s.conns[o].(device := device));
    WithClosed(s, o, s1.conns[o]);
    BadClosed(s1, o);
    var s2 := if device.known then s1 else Bad(s1, o);
    AnnouncedClosed(s2, o);
    AnnouncedKeeps(s2, o);
    QueueingClosed(Announced(s2, o), o, false);
  }

  lemma AnnouncedKeeps(s: State, c: Connection)
    ensures Announced(s, c).conns == s.conns
  {
  }

  lemma HelloClosed(s: State, c: Connection, cookie: Option<Cookie>, generated: Cookie)
    requires Closed(s) && c in s.conns
    ensures Closed(Hello(s, c, cookie, generated))
  {
    hide Closed; hide DontBroadcast; hide SetQueueing;
    var s2 := Begun(s, c, cookie);
    WithClosed(s, c, s2.conns[c]);
    match cookie {
      case None => WithClosed(s2, c, s2.conns[c].(cookie := Some(generated)));
      case Some(k) =>
        var o := Existing(s2, k);
        if o != null {
          DontBroadcastClosed(s2, o);
          DontBroadcastKeeps(s2, o);
          QueueingClosed(DontBroadcast(s2, o), o, true);
        }
        var s3 := PotentialMerge(s2, k).0;
        WithClosed(s3, c, s3.conns[c].(old_ := o));
    }
  }

  lemma StepClosed(s: State, e: Event)
    requires Possible(s, e)
    ensures Closed(Step(s, e))
  {
    hide Closed; hide Hello; hide Bad; hide Merged; hide Choose;
    match e {
      case NewClient(c, d) =>
        var x := ConnState(None, null, false, d, 0);
        WithClosed(s, c, x);
        IgnoringClosed(With(s, c, x), Step(s, e));
      case HelloFrom(c, cookie, k) => HelloClosed(s, c, cookie, k);
      case ThankYouFrom(c, confirmed, k) =>
        WithClosed(s, c, s.conns[c].(cookie := Some(k)));
        var s1 := Cookied(s, c, k);
        var o := s1.conns[c].old_;
        OldInside(s1, c);
        if o == null { AnnouncedClosed(s1, c); } else { MergedClosed(s1, o, s1.conns[c].device); }
      case WentBad(c) => BadClosed(s, c);
      case Destroyed(c) => IgnoringClosed(s, Step(s, e));
      case Broadcast(refill) => ChooseClosed(s, refill);
    }
  }

  lemma OldInside(s: State, c: Connection)
    requires Closed(s) && c in s.conns
    ensures s.conns[c].old_ == null || s.conns[c].old_ in s.conns
  {
  }

  lemma ChooseClosed(s: State, refill: seq<Connection>)
    requires Closed(s) && multiset(refill) == multiset(s.helloed)
    ensures Closed(Choose(s, refill).0)
  {
    forall d | d in refill ensures d in s.helloed {
      assert d in multiset(refill);
    }
    ListsClosed(s, Choose(s, refill).0);
  }

  // ---------- the merge ----------

  // c has said hello with the cookie of the old connection o and has not yet said thank you.
  ghost predicate MergeUnderWay(s: State, c: Connection, o: Connection, cookie: Cookie, device: Device, builds: nat)
  {
    && c in s.conns && o in s.conns && c != o
    && s.conns[c].old_ == o && s.conns[c].cookie == Some(cookie) && s.conns[c].device == device
    && s.conns[o].queueing && s.conns[o].builds == builds
    && c !in s.helloed && c !in s.roundRobin && o !in s.helloed && o !in s.roundRobin
  }

  // Another thank you would list c or o, another hello of c would start over. One handshake in
  // flight per cookie rules this out.
  ghost predicate Disturbs(s: State, e: Event, c: Connection, o: Connection)
  {
    match e
    case HelloFrom(d, _, _) => d == c
    case ThankYouFrom(d, _, _) => d == c || d == o || (d in s.conns && (s.conns[d].old_ == c || s.conns[d].old_ == o))
    case _ => false
  }

  // The hello of a new connection that nobody was told about yet.
  lemma HelloStartsMerge(s: State, c: Connection, cookie: Cookie, generated: Cookie)
    requires Possible(s, HelloFrom(c, Some(cookie), generated))
    requires Distinct(s.helloed) && (forall d | d in s.roundRobin :: d in s.helloed)
    requires c !in s.helloed && c !in s.dead && Existing(s, cookie) != null
    ensures var o := Existing(s, cookie);
            MergeUnderWay(Step(s, HelloFrom(c, Some(cookie), generated)), c, o, cookie, s.conns[c].device,
                          s.conns[o].builds + if s.conns[o].queueing then 0 else 1)
  {
    hide RemoveAll; hide Count; hide Existing; hide Closed; hide Findable; hide Order;
    var o := Existing(s, cookie);
    HelloFinds(s, c, cookie);
    var s2 := Begun(s, c, Some(cookie));
    TakenOff(s2, c, o);
    var s3 := PotentialMerge(s2, cookie).0;
    assert s3.helloed == DontBroadcast(s2, o).helloed && s3.roundRobin == DontBroadcast(s2, o).roundRobin;
    assert DontBroadcast(s2, o).conns == s2.conns;
  }

  // Its own new cookie does not make the connection find itself.
  lemma HelloFinds(s: State, c: Connection, cookie: Cookie)
    requires Closed(s) && c in s.conns && c !in s.helloed && c !in s.dead
    ensures var s2 := Begun(s, c, Some(cookie));
            Closed(s2) && Existing(s2, cookie) == Existing(s, cookie) && Existing(s, cookie) != c
  {
    var s2 := Begun(s, c, Some(cookie));
    FirstWithElsewhere(s, s2, s.helloed, cookie);
    FirstWithElsewhere(s, s2, s.dead, cookie);
  }

  lemma TakenOff(s: State, c: Connection, o: Connection)
    requires Distinct(s.helloed) && (forall d | d in s.roundRobin :: d in s.helloed) && c !in s.helloed
    ensures var t := DontBroadcast(s, o);
            t.conns == s.conns && o !in t.helloed && o !in t.roundRobin && c !in t.helloed && c !in t.roundRobin
  {
    CountOne(s.helloed, o);
  }

  lemma {:induction false} FirstWithElsewhere(s: State, t: State, xs: seq<Connection>, cookie: Cookie)
    requires forall c | c in xs :: CookieOf(s, c) == CookieOf(t, c)
    ensures FirstWith(s, xs, cookie) == FirstWith(t, xs, cookie)
  {
    if xs != [] {
      FirstWithElsewhere(s, t, xs[1..], cookie);
    }
  }

  // Operations on others leave a merge under way alone.
  lemma WithUndisturbed(s: State, d: Connection, x: ConnState, c: Connection, o: Connection, cookie: Cookie, device: Device,
                        builds: nat)
    requires MergeUnderWay(s, c, o, cookie, device, builds)
    requires d == c ==> x.old_ == o && x.cookie == Some(cookie) && x.device == device
    requires d == o ==> x.queueing && x.builds == builds
    ensures MergeUnderWay(With(s, d, x), c, o, cookie, device, builds)
  {
  }

  lemma ListsUndisturbed(s: State, d: Connection, c: Connection, o: Connection, cookie: Cookie, device: Device, builds: nat)
    requires MergeUnderWay(s, c, o, cookie, device, builds)
    ensures MergeUnderWay(DontBroadcast(s, d), c, o, cookie, device, builds)
    ensures d != c && d != o ==> MergeUnderWay(Announced(s, d), c, o, cookie, device, builds)
    ensures d in s.conns ==> MergeUnderWay(SetQueueing(s, d, true), c, o, cookie, device, builds)
    ensures d in s.conns && d != o ==> MergeUnderWay(SetQueueing(s, d, false), c, o, cookie, device, builds)
    ensures d in s.conns ==> MergeUnderWay(Bad(s, d), c, o, cookie, device, builds)
  {
  }

  lemma MergedUndisturbed(s: State, d: Connection, new_: Device, c: Connection, o: Connection, cookie: Cookie, device: Device,
                          builds: nat)
    requires MergeUnderWay(s, c, o, cookie, device, builds) && d in s.conns && d != c && d != o
    ensures MergeUnderWay(Merged(s, d, new_), c, o, cookie, device, builds)
  {
    hide MergeUnderWay; hide Bad; hide SetQueueing; hide Announced;
    var s1 := With(s, d, s.conns[d].(device := new_));
    WithUndisturbed(s, d, s1.conns[d], c, o, cookie, device, builds);
    ListsUndisturbed(s1, d, c, o, cookie, device, builds);
    BadKeeps(s1, d);
    var s2 := if new_.known then s1 else Bad(s1, d);
    ListsUndisturbed(s2, d, c, o, cookie, device, builds);
    AnnouncedKeeps(s2, d);
    ListsUndisturbed(Announced(s2, d), d, c, o, cookie, device, builds);
  }

  lemma DontBroadcastKeeps(s: State, c: Connection)
    ensures DontBroadcast(s, c).conns == s.conns
  {
  }

  lemma BadKeeps(s: State, c: Connection)
    requires c in s.conns
    ensures Bad(s, c).conns.Keys == s.conns.Keys
  {
  }

  lemma HelloUndisturbed(s: State, d: Connection, k: Option<Cookie>, generated: Cookie, c: Connection, o: Connection,
                         cookie: Cookie, device: Device, builds: nat)
    requires Closed(s) && MergeUnderWay(s, c, o, cookie, device, builds) && d in s.conns && d != c
    ensures MergeUnderWay(Hello(s, d, k, generated), c, o, cookie, device, builds)
  {
    hide Closed; hide DontBroadcast; hide SetQueueing; hide Existing;
    var s2 := Begun(s, d, k);
    WithUndisturbed(s, d, s2.conns[d], c, o, cookie, device, builds);
    WithClosed(s, d, s2.conns[d]);
    match k {
      case None => WithUndisturbed(s2, d, s2.conns[d].(cookie := Some(generated)), c, o, cookie, device, builds);
      case Some(j) =>
        var p := Existing(s2, j);
        if p != null {
          ListsUndisturbed(s2, p, c, o, cookie, device, builds);
          DontBroadcastKeeps(s2, p);
          ListsUndisturbed(DontBroadcast(s2, p), p, c, o, cookie, device, builds);
        }
        var s3 := PotentialMerge(s2, j).0;
        WithUndisturbed(s3, d, s3.conns[d].(old_ := p), c, o, cookie, device, builds);
    }
  }

  lemma UndisturbedStep(s: State, e: Event, c: Connection, o: Connection, cookie: Cookie, device: Device, builds: nat)
    requires Possible(s, e) && MergeUnderWay(s, c, o, cookie, device, builds) && !Disturbs(s, e, c, o)
    ensures MergeUnderWay(Step(s, e), c, o, cookie, device, builds)
  {
    hide Closed; hide Hello; hide Bad; hide Merged; hide Announced;
    match e {
      case NewClient(d, _) => WithUndisturbed(s, d, Step(s, e).conns[d], c, o, cookie, device, builds);
      case HelloFrom(d, k, g) => HelloUndisturbed(s, d, k, g, c, o, cookie, device, builds);
      case ThankYouFrom(d, confirmed, g) =>
        var s1 := Cookied(s, d, g);
        WithUndisturbed(s, d, s1.conns[d], c, o, cookie, device, builds);
        OldInside(s, d);
        ListsUndisturbed(s1, d, c, o, cookie, device, builds);
        var p := s.conns[d].old_;
        if p != null { MergedUndisturbed(s1, p, s1.conns[d].device, c, o, cookie, device, builds); }
      case WentBad(d) => ListsUndisturbed(s, d, c, o, cookie, device, builds);
      case Destroyed(d) =>
      case Broadcast(refill) =>
        forall d | d in refill ensures d in s.helloed {
          assert d in multiset(refill);
        }
    }
  }

  ghost predicate MergeDone(s: State, c: Connection, o: Connection, device: Device, builds: nat)
  {
    && c in s.conns && o in s.conns && s.conns[o].device == device && !s.conns[o].queueing && s.conns[o].builds == builds
    && Count(s.helloed, o) == 1 && o !in s.roundRobin && c !in s.helloed && c !in s.roundRobin
  }

  // The thank you that completes it.
  lemma ThankYouCompletesMerge(s: State, c: Connection, o: Connection, cookie: Cookie, device: Device, builds: nat,
                               generated: Cookie)
    requires Possible(s, ThankYouFrom(c, cookie, generated)) && MergeUnderWay(s, c, o, cookie, device, builds)
    ensures MergeDone(Step(s, ThankYouFrom(c, cookie, generated)), c, o, device, builds)
  {
    RemoveAllIsAll(s.helloed, o);
    CountAppend(s.helloed, o);
  }

  lemma {:induction false} CountAppend(xs: seq<Connection>, c: Connection)
    requires c !in xs
    ensures Count(xs + [c], c) == 1
  {
    if xs == [] {
      assert xs + [c] == [c];
    } else {
      assert (xs + [c])[1..] == xs[1..] + [c];
      CountAppend(xs[1..], c);
    }
  }

  // Any events that do not disturb the merge of c onto o, one after the other.
  ghost predicate QuietRun(s: State, es: seq<Event>, c: Connection, o: Connection)
    decreases |es|
  {
    es == [] || (Possible(s, es[0]) && !Disturbs(s, es[0], c, o) && QuietRun(Step(s, es[0]), es[1..], c, o))
  }

  function After(s: State, es: seq<Event>, c: Connection, o: Connection): State
    requires QuietRun(s, es, c, o)
    decreases |es|
  {
    if es == [] then s else After(Step(s, es[0]), es[1..], c, o)
  }

  lemma {:induction false} QuietRunKeepsMerge(s: State, es: seq<Event>, c: Connection, o: Connection, cookie: Cookie,
                                              device: Device, builds: nat)
    requires MergeUnderWay(s, c, o, cookie, device, builds) && QuietRun(s, es, c, o)
    ensures MergeUnderWay(After(s, es, c, o), c, o, cookie, device, builds)
    decreases |es|
  {
    if es != [] {
      UndisturbedStep(s, es[0], c, o, cookie, device, builds);
      QuietRunKeepsMerge(Step(s, es[0]), es[1..], c, o, cookie, device, builds);
    }
  }

  lemma {:induction false} QuietRunClosed(s: State, es: seq<Event>, c: Connection, o: Connection)
    requires Closed(s) && QuietRun(s, es, c, o)
    ensures Closed(After(s, es, c, o))
    decreases |es|
  {
    if es != [] {
      StepClosed(s, es[0]);
      QuietRunClosed(Step(s, es[0]), es[1..], c, o);
    }
  }

  // A client comes back: its hello names the cookie of a connection the server knows, anything
  // that does not disturb the handshake happens in between, and its thank you confirms the
  // cookie. The old connection then owns the new device, is listed exactly once, no longer
  // queues, has built its lists once unless they were built before the hello, and the temporary
  // connection is in no list that broadcasts are taken from.
  lemma ReturningClientIsMerged(s: State, c: Connection, cookie: Cookie, g1: Cookie, es: seq<Event>, g2: Cookie)
    requires Possible(s, HelloFrom(c, Some(cookie), g1))
    requires Distinct(s.helloed) && (forall d | d in s.roundRobin :: d in s.helloed)
    requires c !in s.helloed && c !in s.dead && Existing(s, cookie) != null
    requires QuietRun(Step(s, HelloFrom(c, Some(cookie), g1)), es, c, Existing(s, cookie))
    ensures var o := Existing(s, cookie);
            var t := After(Step(s, HelloFrom(c, Some(cookie), g1)), es, c, o);
            && Possible(t, ThankYouFrom(c, cookie, g2))
            && MergeDone(Step(t, ThankYouFrom(c, cookie, g2)), c, o, s.conns[c].device,
                         s.conns[o].builds + if s.conns[o].queueing then 0 else 1)
  {
    hide Hello; hide Closed; hide Existing; hide MergeDone;
    var o := Existing(s, cookie);
    var e := HelloFrom(c, Some(cookie), g1);
    var builds := s.conns[o].builds + if s.conns[o].queueing then 0 else 1;
    HelloStartsMerge(s, c, cookie, g1);
    StepClosed(s, e);
    QuietRunKeepsMerge(Step(s, e), es, c, o, cookie, s.conns[c].device, builds);
    QuietRunClosed(Step(s, e), es, c, o);
    ThankYouCompletesMerge(After(Step(s, e), es, c, o), c, o, cookie, s.conns[c].device, builds, g2);
  }

  // ---------- when a handshake comes to an end ----------

  // A hello with a cookie returns if and only if nobody without a cookie is met before the match;
  // one without a cookie, from a connection that has none, if and only if everybody who is
  // searched has a cookie and an unused value turns up.
  lemma HelloReturnsIff(s: State, c: Connection, cookie: Option<Cookie>, candidates: seq<Cookie>)
    requires Closed(s) && c in s.conns
    ensures HelloReturns(s, c, cookie, candidates)
            <==> if cookie.Some? || CookieOf(s, c).Some? then Possible(s, HelloFrom(c, cookie, 0))
                 else exists k :: k in candidates && Possible(s, HelloFrom(c, cookie, k))
  {
    match cookie {
      case Some(k) =>
        WithClosed(s, c, Begun(s, c, cookie).conns[c]);
        LookupFinds(Begun(s, c, cookie), k, candidates);
      case None =>
        CookieComesOutIff(s, candidates);
        forall k: Cookie ensures GetsCookie(s, c, k) <==> Possible(s, HelloFrom(c, None, k)) { }
    }
  }

  lemma ThankYouReturnsIff(s: State, c: Connection, confirmed: Cookie, candidates: seq<Cookie>)
    requires Closed(s) && c in s.conns
    ensures CookieReturns(s, c, candidates)
            <==> if CookieOf(s, c).Some? then Possible(s, ThankYouFrom(c, confirmed, 0))
                 else exists k :: k in candidates && Possible(s, ThankYouFrom(c, confirmed, k))
  {
    CookieComesOutIff(s, candidates);
    forall k: Cookie ensures GetsCookie(s, c, k) <==> Possible(s, ThankYouFrom(c, confirmed, k)) { }
  }

  // A client whose socket goes bad before its hello is dead without a cookie.
  lemma BadBeforeHello(x: Connection, device: Device) returns (t: State)
    ensures Leads(EMPTY, [NewClient(x, device), WentBad(x)], t) && x in t.dead && CookieOf(t, x) == None && !Searchable(t)
  {
    var s := Step(EMPTY, NewClient(x, device));
    StepClosed(EMPTY, NewClient(x, device));
    t := Step(s, WentBad(x));
    var es := [NewClient(x, device), WentBad(x)];
    assert es[1..] == [WentBad(x)] && es[1..][1..] == [];
    assert Leads(s, es[1..], t);
  }

  // From then on, until that very connection says hello with a cookie, nobody who has no cookie
  // ever gets one: whatever happens, no hello or thank you of such a connection comes to an end.
  lemma {:induction false} NobodyGetsACookie(s: State, es: seq<Event>, t: State, x: Connection, y: Connection,
                                             candidates: seq<Cookie>)
    requires Closed(s) && Leads(s, es, t) && x in s.dead && CookieOf(s, x) == None
    requires forall e | e in es :: !(e.HelloFrom? && e.c == x && e.cookie.Some?)
    ensures x in t.dead && CookieOf(t, x) == None
    ensures y in t.conns && CookieOf(t, y) == None ==>
              !HelloReturns(t, y, None, candidates) && !CookieReturns(t, y, candidates)
    decreases |es|
  {
    if es == [] {
      CookieComesOutIff(t, candidates);
    } else {
      StepClosed(s, es[0]);
      StaysDead(s, es[0], x);
      NobodyGetsACookie(Step(s, es[0]), es[1..], t, x, y, candidates);
    }
  }

  lemma StaysDead(s: State, e: Event, x: Connection)
    requires Possible(s, e) && x in s.dead && CookieOf(s, x) == None && !(e.HelloFrom? && e.c == x && e.cookie.Some?)
    ensures x in Step(s, e).dead && CookieOf(Step(s, e), x) == None
  {
    hide Existing; hide Findable; hide Order; hide RemoveAll; hide Count;
  }
}
