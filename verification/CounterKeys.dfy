/** The key strings of the limiter's counters (src/di/rate_limiter.py). */
module CounterKeys {

  function Digit(d: nat): char
    requires d < 10
  {
    '0' + d as char
  }

  function Digits(n: nat): (s: string)
    ensures s != []
  {
    if n < 10 then [Digit(n)] else Digits(n / 10) + [Digit(n % 10)]
  }

  /** An integer as Python formats it. */
  function Decimal(i: int): string {
    if i < 0 then "-" + Digits(-i) else Digits(i)
  }

  predicate IsDigit(c: char) {
    '0' <= c <= '9'
  }

  function Value(s: string): nat
    requires forall i :: 0 <= i < |s| ==> IsDigit(s[i])
  {
    if s == [] then 0
    else
      assert IsDigit(s[|s| - 1]);
      Value(s[..|s| - 1]) * 10 + (s[|s| - 1] as int - '0' as int)
  }

  lemma {:induction false} DigitsRoundTrip(n: nat)
    ensures forall i :: 0 <= i < |Digits(n)| ==> IsDigit(Digits(n)[i])
    ensures Value(Digits(n)) == n
  {
    if n < 10 {
      assert Digits(n)[..|Digits(n)| - 1] == [];
    } else {
      DigitsRoundTrip(n / 10);
      assert Digits(n)[..|Digits(n)| - 1] == Digits(n / 10);
    }
  }

  lemma {:induction false} DecimalInjective(i: int, j: int)
    requires Decimal(i) == Decimal(j)
    ensures i == j
  {
    DigitsRoundTrip(if i < 0 then -i else i);
    DigitsRoundTrip(if j < 0 then -j else j);
    assert i < 0 ==> Decimal(i)[0] == '-' && Decimal(i)[1..] == Digits(-i);
    assert j < 0 ==> Decimal(j)[0] == '-' && Decimal(j)[1..] == Digits(-j);
  }

  lemma {:induction false} DecimalHasNoColon(i: int)
    ensures ':' !in Decimal(i)
  {
    DigitsRoundTrip(if i < 0 then -i else i);
  }

  /** The part of a key that names the client and the route. */
  function Base(client: string, route: string): string {
    client + ":" + route
  }

  function CounterKey(prefix: string, base: string, windowStart: int): string {
    prefix + ":" + base + ":" + Decimal(windowStart)
  }

  lemma {:induction false} LastColonIsLast(a: string, x: string, b: string, y: string)
    requires a + ":" + x == b + ":" + y
    requires ':' !in x
    ensures |b| <= |a|
  {
    var s := a + ":" + x;
    assert s[|b|] == ':';
    assert forall i :: |a| < i < |s| ==> s[i] == x[i - |a| - 1];
  }

  lemma {:induction false} LastColonSplits(a: string, x: string, b: string, y: string)
    requires a + ":" + x == b + ":" + y
    requires ':' !in x && ':' !in y
    ensures a == b && x == y
  {
    LastColonIsLast(a, x, b, y);
    LastColonIsLast(b, y, a, x);
    var s := a + ":" + x;
    assert a == s[..|a|] && b == s[..|b|];
    assert x == s[|a| + 1..] && y == s[|b| + 1..];
  }

  /** One key, one base and window: the digits of the window cannot be confused with the rest. */
  lemma {:induction false} CounterKeyInjective(prefix: string, base: string, start: int, base': string, start': int)
    requires CounterKey(prefix, base, start) == CounterKey(prefix, base', start')
    ensures base == base' && start == start'
  {
    DecimalHasNoColon(start);
    DecimalHasNoColon(start');
    LastColonSplits(prefix + ":" + base, Decimal(start), prefix + ":" + base', Decimal(start'));
    assert base == (prefix + ":" + base)[|prefix| + 1..];
    assert base' == (prefix + ":" + base')[|prefix| + 1..];
    DecimalInjective(start, start');
  }

  // ---------- Which clients and routes share a counter ----------

  predicate EndsWith(s: string, suffix: string) {
    |suffix| <= |s| && s[|s| - |suffix|..] == suffix
  }

  /** The longer route swallows part of the other's client. */
  ghost predicate Shifted(client: string, route: string, client': string, route': string) {
    exists x :: route == x + ":" + route' && client' == client + ":" + x
  }

  lemma {:induction false} ShiftedWhenLonger(client: string, route: string, client': string, route': string)
    requires Base(client, route) == Base(client', route') && |route| > |route'|
    ensures Shifted(client, route, client', route')
  {
    var s, n := Base(client, route), |route| - |route'| - 1;
    var x := route[..n];
    assert route == s[|client| + 1..] && route' == s[|client'| + 1..];
    assert client == s[..|client|] && client' == s[..|client'|];
    assert route[n] == s[|client'|] == ':';
    assert route == x + ":" + route';
    assert client' == client + ":" + x;
  }

  lemma {:induction false} ShiftedCollide(client: string, route: string, client': string, route': string)
    requires Shifted(client, route, client', route')
    ensures Base(client, route) == Base(client', route') && |route| > |route'|
  {
    var x :| route == x + ":" + route' && client' == client + ":" + x;
    assert client + ":" + (x + ":" + route') == (client + ":" + x) + ":" + route';
  }

  /** Every way in which two pairs of client and route are counted together. */
  lemma {:induction false} CollisionsExactly(client: string, route: string, client': string, route': string)
    ensures Base(client, route) == Base(client', route')
       <==> || (client == client' && route == route')
            || Shifted(client, route, client', route')
            || Shifted(client', route', client, route)
  {
    if Base(client, route) == Base(client', route') {
      var s := Base(client, route);
      if |route| > |route'| {
        ShiftedWhenLonger(client, route, client', route');
      } else if |route| < |route'| {
        ShiftedWhenLonger(client', route', client, route);
      } else {
        assert client == s[..|client|] && route == s[|client| + 1..];
      }
    } else if Shifted(client, route, client', route') {
      ShiftedCollide(client, route, client', route');
    } else if Shifted(client', route', client, route) {
      ShiftedCollide(client', route', client, route);
    }
  }

  /** Some clients are counted together on these routes. */
  ghost predicate ShareCounter(route: string, route': string) {
    exists client, client' :: (client != client' || route != route') && Base(client, route) == Base(client', route')
  }

  /** Over all clients, two routes can share a counter exactly when one ends with ":" and the other. */
  lemma {:induction false} ShareCounterExactly(route: string, route': string)
    ensures ShareCounter(route, route') <==> EndsWith(route, ":" + route') || EndsWith(route', ":" + route)
  {
    if ShareCounter(route, route') {
      var client, client' :| (client != client' || route != route') && Base(client, route) == Base(client', route');
      CollisionsExactly(client, route, client', route');
    }
    if EndsWith(route, ":" + route') {
      SuffixShares(route, route');
      assert ShareCounter(route, route');
    }
    if EndsWith(route', ":" + route) {
      SuffixShares(route', route);
      assert ShareCounter(route, route');
    }
  }

  lemma {:induction false} SuffixShares(route: string, route': string)
    requires EndsWith(route, ":" + route')
    ensures Base("", route) == Base(":" + route[..|route| - |route'| - 1], route') && route != route'
  {
    var x := route[..|route| - |route'| - 1];
    assert route == x + (":" + route');
    ShiftedByPrefix(x, route');
    assert "" + ":" + x == ":" + x;
  }

  lemma {:induction false} ShiftedByPrefix(x: string, route': string)
    ensures Base("", x + (":" + route')) == Base(":" + x, route')
  {
    assert "" + ":" + (x + (":" + route')) == ":" + x + ":" + route';
  }

  /** A route pattern of the application: it starts with a slash, and no slash follows a colon. */
  predicate ServedRoute(route: string) {
    && RootedRoute(route)
    && forall i :: 0 < i < |route| && route[i] == '/' ==> route[i - 1] != ':'
  }

  predicate RootedRoute(route: string) {
    route != [] && route[0] == '/'
  }

  const SHORTNER := "/v0/shortner/"

  /** The routes that have the limiter. */
  const LIMITED_ROUTES := [SHORTNER, SHORTNER + "activate", SHORTNER + "deactivate", SHORTNER + "stats",
                           SHORTNER + "{short_code}"]

  lemma {:induction false} LimitedRoutesAreServed(k: nat)
    requires k < |LIMITED_ROUTES|
    ensures ServedRoute(LIMITED_ROUTES[k])
  {
    assert forall i :: 0 <= i < |SHORTNER| ==> SHORTNER[i] != ':';
    assert SHORTNER[0] == '/';
    assert forall i :: 0 <= i < |LIMITED_ROUTES[k]| ==> LIMITED_ROUTES[k][i] != ':';
  }

  lemma {:induction false} ShiftedRouteIsNotServed(client: string, route: string, client': string, route': string)
    requires Shifted(client, route, client', route') && RootedRoute(route')
    ensures !ServedRoute(route)
  {
    var x :| route == x + ":" + route' && client' == client + ":" + x;
    assert route[|x|] == ':' && route[|x| + 1] == route'[0];
  }

  lemma {:induction false} ShiftedClientHasSlash(client: string, route: string, client': string, route': string)
    requires Shifted(client, route, client', route') && RootedRoute(route)
    ensures '/' in client'
  {
    var x :| route == x + ":" + route' && client' == client + ":" + x;
    assert route[0] == if x == [] then ':' else x[0];
    assert client'[|client| + 1] == x[0];
  }

  /**
   * On the routes of the application distinct clients, routes or windows have distinct counters,
   * whatever the client string is.
   */
  lemma {:induction false} DistinctTriplesDistinctKeys(prefix: string, client: string, route: string, start: int,
                                                       client': string, route': string, start': int)
    requires ServedRoute(route) && ServedRoute(route')
    ensures CounterKey(prefix, Base(client, route), start) == CounterKey(prefix, Base(client', route'), start')
       <==> client == client' && route == route' && start == start'
  {
    if CounterKey(prefix, Base(client, route), start) == CounterKey(prefix, Base(client', route'), start') {
      CounterKeyInjective(prefix, Base(client, route), start, Base(client', route'), start');
      CollisionsExactly(client, route, client', route');
      if Shifted(client, route, client', route') {
        ShiftedRouteIsNotServed(client, route, client', route');
      } else if Shifted(client', route', client, route) {
        ShiftedRouteIsNotServed(client', route', client, route);
      }
    }
  }

  /** The same for all rooted routes, when no client has a slash, as no address has. */
  lemma {:induction false} PlainClientsDistinctKeys(prefix: string, client: string, route: string, start: int,
                                                    client': string, route': string, start': int)
    requires RootedRoute(route) && RootedRoute(route') && '/' !in client && '/' !in client'
    ensures CounterKey(prefix, Base(client, route), start) == CounterKey(prefix, Base(client', route'), start')
       <==> client == client' && route == route' && start == start'
  {
    if CounterKey(prefix, Base(client, route), start) == CounterKey(prefix, Base(client', route'), start') {
      CounterKeyInjective(prefix, Base(client, route), start, Base(client', route'), start');
      CollisionsExactly(client, route, client', route');
      if Shifted(client, route, client', route') {
        ShiftedClientHasSlash(client, route, client', route');
      } else if Shifted(client', route', client, route) {
        ShiftedClientHasSlash(client', route', client, route);
      }
    }
  }

  /** An instance of a shared counter; the longer route has a slash after a colon. */
  lemma {:induction false} SlashInClientCollides(prefix: string, start: int)
    ensures CounterKey(prefix, Base("a", "/b:/c"), start) == CounterKey(prefix, Base("a:/b", "/c"), start)
  {
    assert Base("a", "/b:/c") == Base("a:/b", "/c");
  }
}
