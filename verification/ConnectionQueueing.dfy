// When the connections of the registry queue their responses, how often they build their lists,
// and what a handshake that is no merge leaves behind.
module ConnectionQueueing {
  import opened Wrappers
  import opened Lists
  import opened CookieSearch
  import opened ConnectionRegistry
  import opened ConnectionRuns

  // c goes bad, or somebody says hello with its cookie.
  ghost predicate TurnsOn(s: State, e: Event, c: Connection)
    requires Possible(s, e)
  {
    e == WentBad(c) || (e.HelloFrom? && e.cookie.Some? && Existing(Begun(s, e.c, e.cookie), e.cookie.value) == c)
  }

  // An accepted thank you hands its device over to c.
  ghost predicate MergesOnto(s: State, e: Event, c: Connection)
    requires Possible(s, e)
  {
    && e.ThankYouFrom? && s.conns[e.c].old_ == c
    && e.confirmed == if s.conns[e.c].cookie.Some? then s.conns[e.c].cookie.value else e.generated
  }

  // A bad connection is off the lists, dead and queueing, and has its lists built if it was not
  // queueing before; nobody else is affected.
  lemma BadConnectionQueues(s: State, c: Connection)
    requires Possible(s, WentBad(c))
    ensures var t := Step(s, WentBad(c));
            && c in t.conns && c !in t.helloed && t.dead == s.dead + [c]
            && t.conns[c].queueing && t.conns[c].builds == s.conns[c].builds + (if s.conns[c].queueing then 0 else 1)
            && (forall d | d in s.conns && d != c :: d in t.conns && t.conns[d] == s.conns[d])
  {
  }

  // Queueing goes on when the connection goes bad or is named by a hello, and off when a merge onto
  // it is completed. Lists are built when queueing goes from off to on; within a merge with a
  // device the server does not know it does so for a moment.
  ghost predicate QueueingFollows(s: State, e: Event, c: Connection)
    requires Possible(s, e) && c in s.conns
  {
    var t := Step(s, e);
    && c in t.conns
    && (t.conns[c].queueing <==> !MergesOnto(s, e, c) && (TurnsOn(s, e, c) || s.conns[c].queueing))
    && t.conns[c].builds
       == s.conns[c].builds
          + if !s.conns[c].queueing && (TurnsOn(s, e, c) || (MergesOnto(s, e, c) && !s.conns[e.c].device.known)) then 1 else 0
  }

  lemma HelloQueueing(s: State, e: Event, c: Connection)
    requires Possible(s, e) && c in s.conns && e.HelloFrom?
    ensures QueueingFollows(s, e, c)
  {
    hide Existing; hide RemoveAll; hide Count; hide Findable; hide Order; hide Searchable; hide Unused;
  }

  lemma MergedQueueing(s: State, o: Connection, device: Device, c: Connection)
    requires o in s.conns && c in s.conns
    ensures var t := Merged(s, o, device);
            && c in t.conns && (t.conns[c].queueing <==> c != o && s.conns[c].queueing)
            && t.conns[c].builds == s.conns[c].builds + if c == o && !s.conns[c].queueing && !device.known then 1 else 0
  {
  }

  lemma ThankYouQueueing(s: State, e: Event, c: Connection)
    requires Possible(s, e) && c in s.conns && e.ThankYouFrom?
    ensures QueueingFollows(s, e, c)
  {
    var s1 := Cookied(s, e.c, e.generated);
    OldInside(s, e.c);
    var o := s.conns[e.c].old_;
    if o != null { MergedQueueing(s1, o, s.conns[e.c].device, c); }
    hide Existing; hide Order; hide Searchable; hide Unused; hide Closed; hide Merged; hide Findable;
  }

  lemma QueueingStep(s: State, e: Event, c: Connection)
    requires Possible(s, e) && c in s.conns
    ensures QueueingFollows(s, e, c)
  {
    if e.HelloFrom? {
      HelloQueueing(s, e, c);
    } else if e.ThankYouFrom? {
      ThankYouQueueing(s, e, c);
    } else {
      hide Existing; hide RemoveAll; hide Count; hide Findable; hide Order; hide Searchable; hide Unused;
    }
  }

  // No merge onto c is completed on the way.
  ghost predicate NoMergeOnto(s: State, es: seq<Event>, c: Connection)
    decreases |es|
  {
    es == [] || (Possible(s, es[0]) && !MergesOnto(s, es[0], c) && NoMergeOnto(Step(s, es[0]), es[1..], c))
  }

  lemma {:induction false} QueuesUntilMerged(s: State, es: seq<Event>, t: State, c: Connection)
    requires Leads(s, es, t) && NoMergeOnto(s, es, c) && c in s.conns && s.conns[c].queueing
    ensures c in t.conns && t.conns[c].queueing
    decreases |es|
  {
    if es != [] {
      hide Possible; hide Step; hide MergesOnto; hide TurnsOn;
      QueueingStep(s, es[0], c);
      QueuesUntilMerged(Step(s, es[0]), es[1..], t, c);
    }
  }

  // Whatever happens after a connection went bad, it queues until a merge onto it is completed.
  lemma BadQueuesUntilMerged(s: State, c: Connection, es: seq<Event>, t: State)
    requires Possible(s, WentBad(c)) && Leads(Step(s, WentBad(c)), es, t) && NoMergeOnto(Step(s, WentBad(c)), es, c)
    ensures c in t.conns && t.conns[c].queueing
  {
    BadConnectionQueues(s, c);
    hide Step; hide Possible;
    QueuesUntilMerged(Step(s, WentBad(c)), es, t, c);
  }

  // Queueing was off before the event, and on after it or for a moment within it.
  ghost predicate GoesOn(s: State, e: Event, c: Connection)
    requires Possible(s, e)
  {
    && c in s.conns && !s.conns[c].queueing
    && ((c in Step(s, e).conns && Step(s, e).conns[c].queueing) || (MergesOnto(s, e, c) && !s.conns[e.c].device.known))
  }

  ghost function Changes(s: State, es: seq<Event>, t: State, c: Connection): nat
    requires Leads(s, es, t)
    decreases |es|
  {
    if es == [] then 0 else (if GoesOn(s, es[0], c) then 1 else 0) + Changes(Step(s, es[0]), es[1..], t, c)
  }

  function BuildsOf(s: State, c: Connection): nat { if c in s.conns then s.conns[c].builds else 0 }

  lemma BuildsStep(s: State, e: Event, c: Connection)
    requires Possible(s, e)
    ensures BuildsOf(Step(s, e), c) == BuildsOf(s, c) + if GoesOn(s, e, c) then 1 else 0
  {
    if c in s.conns {
      QueueingStep(s, e, c);
      TurnedOff(s, e, c);
      hide Step; hide Possible; hide MergesOnto; hide TurnsOn;
    } else {
      NobodyAppears(s, e, c);
    }
  }

  // What turns queueing on does not complete a merge.
  lemma TurnedOff(s: State, e: Event, c: Connection)
    requires Possible(s, e)
    ensures TurnsOn(s, e, c) ==> !MergesOnto(s, e, c)
  {
  }

  lemma NobodyAppears(s: State, e: Event, c: Connection)
    requires Possible(s, e) && c !in s.conns
    ensures BuildsOf(Step(s, e), c) == 0
  {
    hide Existing; hide RemoveAll; hide Count; hide Findable; hide Order; hide Searchable; hide Unused;
    StepClosed(s, e);
  }

  // In every run from the start a connection has built its lists exactly as often as its queueing
  // went from off to on.
  lemma {:induction false} BuildsAreChanges(s: State, es: seq<Event>, t: State, c: Connection)
    requires Leads(s, es, t)
    ensures BuildsOf(t, c) == BuildsOf(s, c) + Changes(s, es, t, c)
    ensures s == EMPTY ==> BuildsOf(t, c) == Changes(s, es, t, c)
    decreases |es|
  {
    if es != [] {
      hide Possible; hide Step; hide GoesOn;
      BuildsStep(s, es[0], c);
      BuildsAreChanges(Step(s, es[0]), es[1..], t, c);
    }
  }

  // ---------- handshakes that are no merge ----------

  // A hello that names no connection of the server forgets whatever merge was intended before,
  // and its thank you lists the connection itself and changes nothing else.
  lemma StrangerIsListed(s: State, c: Connection, cookie: Option<Cookie>, g1: Cookie, g2: Cookie)
    requires Possible(s, HelloFrom(c, cookie, g1))
    requires cookie.Some? ==> Existing(Begun(s, c, cookie), cookie.value) == null
    ensures var t := Step(s, HelloFrom(c, cookie, g1));
            && CookieOf(t, c).Some? && (cookie.Some? ==> CookieOf(t, c) == cookie)
            && Possible(t, ThankYouFrom(c, CookieOf(t, c).value, g2))
            && Step(t, ThankYouFrom(c, CookieOf(t, c).value, g2)) == t.(helloed := s.helloed + [c])
            && t.conns[c].old_ == null && t.dead == s.dead && t.roundRobin == s.roundRobin
            && forall d | d in s.conns && d != c :: d in t.conns && t.conns[d] == s.conns[d]
  {
    StepClosed(s, HelloFrom(c, cookie, g1));
    hide Existing; hide Findable; hide Order; hide Searchable; hide Unused; hide Closed;
  }

  // A thank you with the wrong cookie changes nothing.
  lemma WrongCookieChangesNothing(s: State, c: Connection, confirmed: Cookie, generated: Cookie)
    requires Possible(s, ThankYouFrom(c, confirmed, generated)) && CookieOf(s, c).Some? && CookieOf(s, c) != Some(confirmed)
    ensures Step(s, ThankYouFrom(c, confirmed, generated)) == s
  {
  }

  // A merge with a device the server does not know leaves the old connection dead and listed at once.
  lemma UnknownDeviceIsDeadAndListed(s: State, e: Event, o: Connection)
    requires Possible(s, e) && MergesOnto(s, e, o) && !s.conns[e.c].device.known
    ensures o in Step(s, e).dead && Count(Step(s, e).helloed, o) == 1 && Step(s, e).conns[o].device == s.conns[e.c].device
  {
    OldInside(s, e.c);
    CountAppend(RemoveAll(s.helloed, o), o);
    hide Existing; hide Findable; hide Order; hide Searchable; hide Unused; hide Closed; hide RemoveAll; hide Count;
  }
}
