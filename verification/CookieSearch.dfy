// The search for a cookie, as the recursion it is: getExistingConnectionUsingCookie asks every
// connection it meets for its cookie, and a connection that has none yet generates one, which
// searches all over again. Connections appear here only by their cookies, in the order they are
// searched.
module CookieSearch {
  import opened Wrappers

  type Cookie = n: int | 0 <= n < 0x1_0000_0000

  // taken: the cookie was found; left: what generateCookie has still to offer.
  datatype Searched = Searched(taken: bool, left: seq<Cookie>)

  // None: all values generateCookie has to offer are used up and the search is still going on.
  function Search(order: seq<Option<Cookie>>, from: nat, cookie: Cookie, candidates: seq<Cookie>): (r: Option<Searched>)
    ensures r.Some? ==> |r.value.left| <= |candidates|
    decreases |candidates|, 1, |order| - from
  {
    if from >= |order| then Some(Searched(false, candidates))
    else
      match order[from]
      case Some(k) => if k == cookie then Some(Searched(true, candidates)) else Search(order, from + 1, cookie, candidates)
      case None =>
        match Generate(order, candidates)
        case None => None
        case Some(g) =>
          if g.0 == cookie then Some(Searched(true, g.1))
          else Search(order[from := Some(g.0)], from + 1, cookie, g.1)
  }

  // generateUnusedCookie: the cookie and the values not drawn yet
  function Generate(order: seq<Option<Cookie>>, candidates: seq<Cookie>): (r: Option<(Cookie, seq<Cookie>)>)
    ensures r.Some? ==> |r.value.1| < |candidates|
    decreases |candidates|, 0
  {
    if candidates == [] then None
    else
      match Search(order, 0, candidates[0], candidates[1..])
      case None => None
      case Some(s) => if s.taken then Generate(order, s.left) else Some((candidates[0], s.left))
  }

  lemma {:induction false} SearchNeverEnds(order: seq<Option<Cookie>>, from: nat, at: nat, cookie: Cookie, candidates: seq<Cookie>)
    requires from <= at < |order| && order[at] == None
    ensures var r := Search(order, from, cookie, candidates); r == None || r.value.taken
    decreases |candidates|, 1, |order| - from
  {
    match order[from] {
      case Some(k) => if k != cookie { SearchNeverEnds(order, from + 1, at, cookie, candidates); }
      case None => GenerateNeverEnds(order, from, candidates);
    }
  }

  lemma {:induction false} GenerateNeverEnds(order: seq<Option<Cookie>>, at: nat, candidates: seq<Cookie>)
    requires at < |order| && order[at] == None
    ensures Generate(order, candidates) == None
    decreases |candidates|, 0
  {
    if candidates != [] {
      SearchNeverEnds(order, 0, at, candidates[0], candidates[1..]);
      var r := Search(order, 0, candidates[0], candidates[1..]);
      if r.Some? { GenerateNeverEnds(order, at, r.value.left); }
    }
  }

  // A search meets the next connection.
  lemma SearchNext(order: seq<Option<Cookie>>, from: nat, cookie: Cookie, candidates: seq<Cookie>)
    requires from < |order|
    ensures Search(order, from, cookie, candidates)
            == match order[from]
               case None => None
               case Some(k) => if k == cookie then Some(Searched(true, candidates)) else Search(order, from + 1, cookie, candidates)
    ensures order[from] == None ==> Generate(order, candidates) == None
  {
    if order[from] == None { GenerateNeverEnds(order, from, candidates); }
  }

  // Nobody without a cookie is met before the one with this cookie.
  ghost predicate Findable(order: seq<Option<Cookie>>, from: nat, cookie: Cookie)
  {
    forall i | from <= i < |order| && order[i] == None :: exists j :: from <= j < i && order[j] == Some(cookie)
  }

  // A search comes to an end if and only if it never has to ask a connection without a cookie.
  lemma {:induction false} SearchReturnsIff(order: seq<Option<Cookie>>, from: nat, cookie: Cookie, candidates: seq<Cookie>)
    requires from <= |order|
    ensures var r := Search(order, from, cookie, candidates);
            && (r.Some? <==> Findable(order, from, cookie))
            && (r.Some? ==> r.value == Searched(Some(cookie) in order[from..], candidates))
    decreases |order| - from
  {
    if from < |order| {
      assert order[from..] == [order[from]] + order[from + 1..];
      match order[from] {
        case Some(k) => if k != cookie { SearchReturnsIff(order, from + 1, cookie, candidates); }
        case None => GenerateNeverEnds(order, from, candidates);
      }
    }
  }

  // A cookie comes out if and only if everybody who is searched has one and an unused value turns
  // up, and what comes out is unused.
  lemma {:induction false} GenerateReturnsIff(order: seq<Option<Cookie>>, candidates: seq<Cookie>)
    ensures var r := Generate(order, candidates);
            && (r.Some? <==> None !in order && exists k :: k in candidates && Some(k) !in order)
            && (r.Some? ==> r.value.0 in candidates && Some(r.value.0) !in order)
    decreases |candidates|
  {
    if None in order {
      var at :| 0 <= at < |order| && order[at] == None;
      GenerateNeverEnds(order, at, candidates);
    } else if candidates != [] {
      SearchReturnsIff(order, 0, candidates[0], candidates[1..]);
      assert order[0..] == order;
      GenerateReturnsIff(order, candidates[1..]);
    }
  }

  // It is the first value that nobody has, and only the values up to it are used up.
  lemma {:induction false} FirstUnused(order: seq<Option<Cookie>>, candidates: seq<Cookie>, n: nat)
    requires None !in order && n < |candidates| && Some(candidates[n]) !in order
    requires forall j | 0 <= j < n :: Some(candidates[j]) in order
    ensures Generate(order, candidates) == Some((candidates[n], candidates[n + 1..]))
    decreases n
  {
    SearchReturnsIff(order, 0, candidates[0], candidates[1..]);
    assert order[0..] == order;
    if n > 0 {
      assert Some(candidates[0]) in order;
      forall j | 0 <= j < n - 1 ensures Some(candidates[1..][j]) in order { assert candidates[1..][j] == candidates[j + 1]; }
      assert candidates[1..][n..] == candidates[n + 1..];
      FirstUnused(order, candidates[1..], n - 1);
    }
  }
}
