/**
 * The access-control and telemetry layer of the RPC service (7/service.go):
 * the authorisation gate (pathsMatch, hasRights, authenticateRole,
 * getConsumer), the shared registries of the Admin server (Logging sinks
 * and Statistics windows), the counter update addStat, and the order of
 * steps in the unary and the stream interceptors.
 *
 * Call metadata is an already-extracted map from key to values, the peer
 * address an Option, and the ACL a map from consumer to allowed patterns.
 */
module Service {
  import opened GoStd

  /** Capacity of the channel a Logging stream registers. */
  const SinkCapacity: nat := 20

  datatype Event = Event(host: string, consumer: string, fullMethod: string)

  /** Counters of one Statistics window. */
  datatype Stat = Stat(byMethod: map<string, nat>, byConsumer: map<string, nat>)

  const EmptyStat: Stat := Stat(map[], map[])

  /** The gRPC codes the layer uses; Unknown is how a plain error surfaces. */
  datatype Code = Unauthenticated | Unknown

  /** A Go `error`: OK is nil. */
  datatype Status = OK | Error(code: Code, message: string)

  const RoleMissing: Status := Error(Unauthenticated, "Role is missing")
  const IncorrectRole: Status := Error(Unauthenticated, "Incorrect role")
  const NoRights: Status := Error(Unauthenticated, "Role has no rights")

  datatype Result<T> = Ok(value: T) | Err(status: Status)

  // ---------------------------------------------------------------------
  // Path matching

  /** The loop of pathsMatch from position `i` on, over the split segments. */
  function MatchFrom(role: seq<string>, path: seq<string>, i: nat): Outcome<bool>
    decreases |path| - i
  {
    if i >= |path| then Done(true)
    else if i >= |role| then Panic("index out of range")
    else if role[i] == "*" then Done(true)
    else if role[i] != path[i] then Done(false)
    else MatchFrom(role, path, i + 1)
  }

  /** pathsMatch(role, path); reading past the end of a short role panics. */
  function PathsMatch(role: string, path: string): Outcome<bool>
  {
    MatchFrom(Split(role, '/'), Split(path, '/'), 0)
  }

  /** The first `k` segments of `role` and `path` are equal. */
  ghost predicate AgreeUpTo(role: seq<string>, path: seq<string>, k: int)
  {
    0 <= k <= |role| && k <= |path| && forall j :: 0 <= j < k ==> role[j] == path[j]
  }

  /** After `k` equal segments the role has a `*` at a position the path reaches. */
  ghost predicate WildcardAt(role: seq<string>, path: seq<string>, k: int)
  {
    0 <= k < |path| && AgreeUpTo(role, path, k) && k < |role| && role[k] == "*"
  }

  /** The role grants the path: a reachable wildcard, or the path is a prefix of the role. */
  ghost predicate Grants(role: seq<string>, path: seq<string>)
  {
    (exists k :: WildcardAt(role, path, k)) || AgreeUpTo(role, path, |path|)
  }

  /** The role is a proper, wildcard-free prefix of the path: the loop indexes past its end. */
  ghost predicate RunsOffRole(role: seq<string>, path: seq<string>)
  {
    |role| < |path| && AgreeUpTo(role, path, |role|) && forall j :: 0 <= j < |role| ==> role[j] != "*"
  }

  lemma {:induction false} MatchFromSpec(role: seq<string>, path: seq<string>, i: nat)
    requires i <= |path| && AgreeUpTo(role, path, i)
    requires forall j :: 0 <= j < i ==> role[j] != "*"
    ensures MatchFrom(role, path, i) == Done(true) <==> Grants(role, path)
    ensures MatchFrom(role, path, i).Panic? <==> RunsOffRole(role, path)
    decreases |path| - i
  {
    if i >= |path| {
      assert AgreeUpTo(role, path, |path|);
    } else if i >= |role| {
      forall k | WildcardAt(role, path, k) ensures k < i { }
    } else if role[i] == "*" {
      assert WildcardAt(role, path, i);
    } else if role[i] != path[i] {
      forall k | WildcardAt(role, path, k) ensures k < i { }
    } else {
      MatchFromSpec(role, path, i + 1);
    }
  }

  /** pathsMatch, stated over the segments of its arguments. */
  lemma PathsMatchSpec(role: string, path: string)
    ensures PathsMatch(role, path) == Done(true) <==> Grants(Split(role, '/'), Split(path, '/'))
    ensures PathsMatch(role, path).Panic? <==> RunsOffRole(Split(role, '/'), Split(path, '/'))
  {
    MatchFromSpec(Split(role, '/'), Split(path, '/'), 0);
  }

  /** Every path is granted by itself as a pattern. */
  lemma PathsMatchReflexive(p: string)
    ensures PathsMatch(p, p) == Done(true)
  {
    PathsMatchSpec(p, p);
    assert AgreeUpTo(Split(p, '/'), Split(p, '/'), |Split(p, '/')|);
  }

  /** A role with more segments than the path, whose first segments are the path's, grants it. */
  lemma LongerRoleGrants(role: string, path: string)
    requires |Split(path, '/')| <= |Split(role, '/')|
    requires AgreeUpTo(Split(role, '/'), Split(path, '/'), |Split(path, '/')|)
    ensures PathsMatch(role, path) == Done(true)
  {
    PathsMatchSpec(role, path);
  }

  /** Equal, wildcard-free segments are stepped over. */
  lemma {:induction false} MatchFromSkips(role: seq<string>, path: seq<string>, i: nat, k: nat)
    requires i <= k && k < |role| && k < |path|
    requires forall j :: i <= j < k ==> role[j] != "*" && role[j] == path[j]
    ensures MatchFrom(role, path, i) == MatchFrom(role, path, k)
    decreases k - i
  {
    if i < k {
      MatchFromSkips(role, path, i + 1, k);
    }
  }

  /** The first differing segment before any wildcard denies the path. */
  lemma FirstMismatchDenies(role: string, path: string, k: nat)
    requires AgreeUpTo(Split(role, '/'), Split(path, '/'), k)
    requires k < |Split(role, '/')| && k < |Split(path, '/')|
    requires Split(role, '/')[k] != "*" && Split(role, '/')[k] != Split(path, '/')[k]
    requires forall j :: 0 <= j < k ==> Split(role, '/')[j] != "*"
    ensures PathsMatch(role, path) == Done(false)
  {
    MatchFromSkips(Split(role, '/'), Split(path, '/'), 0, k);
  }

  lemma SplitTwoSegments(a: string, b: string)
    requires '/' !in a && '/' !in b
    ensures Split("/" + a + "/" + b, '/') == ["", a, b]
  {
    var rest := a + ['/'] + b;
    assert Split(rest, '/') == [a, b] by {
      SplitWithoutSeparator(b, '/');
      SplitAtSeparator(a, '/', b);
    }
    assert "/" + a + "/" + b == "" + ['/'] + rest;
    SplitAtSeparator("", '/', rest);
  }

  lemma SplitOneSegment(a: string)
    requires '/' !in a
    ensures Split("/" + a, '/') == ["", a]
  {
    SplitWithoutSeparator(a, '/');
    assert "/" + a == "" + ['/'] + a;
    SplitAtSeparator("", '/', a);
  }

  lemma SplitAdmin()
    ensures Split("/Admin", '/') == ["", "Admin"]
  {
    assert "/Admin" == "/" + "Admin";
    SplitOneSegment("Admin");
  }

  lemma SplitAdminWildcard()
    ensures Split("/Admin/*", '/') == ["", "Admin", "*"]
  {
    assert "/Admin/*" == "/" + "Admin" + "/" + "*";
    SplitTwoSegments("Admin", "*");
  }

  lemma SplitAdminLogging()
    ensures Split("/Admin/Logging", '/') == ["", "Admin", "Logging"]
  {
    assert "/Admin/Logging" == "/" + "Admin" + "/" + "Logging";
    SplitTwoSegments("Admin", "Logging");
  }

  lemma SplitAdminStatistics()
    ensures Split("/Admin/Statistics", '/') == ["", "Admin", "Statistics"]
  {
    assert "/Admin/Statistics" == "/" + "Admin" + "/" + "Statistics";
    SplitTwoSegments("Admin", "Statistics");
  }

  /** The wildcard pattern of the Admin service grants "/Admin/Logging", and "/Admin" itself. */
  lemma AdminWildcardExamples()
    ensures PathsMatch("/Admin/*", "/Admin/Logging") == Done(true)
    ensures PathsMatch("/Admin/*", "/Admin") == Done(true)
  {
    SplitAdmin();
    SplitAdminWildcard();
    SplitAdminLogging();
  }

  /** "/Admin/Logging" does not grant "/Admin/Statistics". */
  lemma SiblingMethodExample()
    ensures PathsMatch("/Admin/Logging", "/Admin/Statistics") == Done(false)
  {
    SplitAdminLogging();
    SplitAdminStatistics();
  }

  /** "/Admin" is shorter than "/Admin/Logging" and has no wildcard: the loop runs off it. */
  lemma ShortRoleExample()
    ensures PathsMatch("/Admin", "/Admin/Logging").Panic?
  {
    SplitAdmin();
    SplitAdminLogging();
  }

  // ---------------------------------------------------------------------
  // hasRights, authenticateRole, getConsumer

  /** hasRights: tries the allowed patterns in order. */
  function HasRights(allowed: seq<string>, fullMethod: string): Outcome<bool>
  {
    if |allowed| == 0 then Done(false)
    else match PathsMatch(allowed[0], fullMethod)
      case Done(true) => Done(true)
      case Done(false) => HasRights(allowed[1..], fullMethod)
      case Panic(why) => Panic(why)
  }

  /** Pattern `i` grants `method` and every earlier pattern plainly denies it. */
  ghost predicate FirstGrantAt(allowed: seq<string>, fullMethod: string, i: int)
  {
    0 <= i < |allowed| && PathsMatch(allowed[i], fullMethod) == Done(true) &&
    forall j :: 0 <= j < i ==> PathsMatch(allowed[j], fullMethod) == Done(false)
  }

  lemma {:induction false} HasRightsSpec(allowed: seq<string>, fullMethod: string)
    ensures HasRights(allowed, fullMethod) == Done(true) <==> exists i :: FirstGrantAt(allowed, fullMethod, i)
    ensures HasRights(allowed, fullMethod) == Done(false) <==>
              forall i :: 0 <= i < |allowed| ==> PathsMatch(allowed[i], fullMethod) == Done(false)
  {
    if |allowed| > 0 {
      var rest := allowed[1..];
      HasRightsSpec(rest, fullMethod);
      assert forall i :: 1 <= i < |allowed| ==> allowed[i] == rest[i - 1];
      match PathsMatch(allowed[0], fullMethod)
      case Done(true) =>
        assert FirstGrantAt(allowed, fullMethod, 0);
      case Done(false) =>
        if exists i :: FirstGrantAt(rest, fullMethod, i) {
          var i :| FirstGrantAt(rest, fullMethod, i);
          assert FirstGrantAt(allowed, fullMethod, i + 1);
        }
        if exists i :: FirstGrantAt(allowed, fullMethod, i) {
          var i :| FirstGrantAt(allowed, fullMethod, i);
          assert FirstGrantAt(rest, fullMethod, i - 1);
        }
      case Panic(_) =>
    }
  }

  /** When no pattern trips the out-of-range read, hasRights is "some pattern grants the method". */
  lemma {:induction false} HasRightsIffSomeGrants(allowed: seq<string>, fullMethod: string)
    requires forall i :: 0 <= i < |allowed| ==> PathsMatch(allowed[i], fullMethod).Done?
    ensures HasRights(allowed, fullMethod).Done?
    ensures HasRights(allowed, fullMethod).value <==>
              exists i :: 0 <= i < |allowed| && PathsMatch(allowed[i], fullMethod) == Done(true)
  {
    if |allowed| > 0 {
      var rest := allowed[1..];
      assert forall i :: 1 <= i < |allowed| ==> allowed[i] == rest[i - 1];
      HasRightsIffSomeGrants(rest, fullMethod);
      if exists i :: 0 <= i < |rest| && PathsMatch(rest[i], fullMethod) == Done(true) {
        var i :| 0 <= i < |rest| && PathsMatch(rest[i], fullMethod) == Done(true);
        assert PathsMatch(allowed[i + 1], fullMethod) == Done(true);
      }
      if exists i :: 0 <= i < |allowed| && PathsMatch(allowed[i], fullMethod) == Done(true) {
        var i :| 0 <= i < |allowed| && PathsMatch(allowed[i], fullMethod) == Done(true);
        if i > 0 {
          assert PathsMatch(rest[i - 1], fullMethod) == Done(true);
        }
      }
    }
  }

  /** The empty allow-list grants nothing. */
  lemma NoPatternsNoRights(fullMethod: string)
    ensures HasRights([], fullMethod) == Done(false)
  {
  }

  /** authenticateRole: nil exactly when hasRights holds. */
  function AuthenticateRole(fullMethod: string, allowed: seq<string>): (r: Outcome<Status>)
    ensures r == Done(OK) <==> exists i :: FirstGrantAt(allowed, fullMethod, i)
    ensures r == Done(NoRights) <==>
              forall i :: 0 <= i < |allowed| ==> PathsMatch(allowed[i], fullMethod) == Done(false)
    ensures r.Done? ==> r.value in {OK, NoRights}
  {
    HasRightsSpec(allowed, fullMethod);
    match HasRights(allowed, fullMethod)
    case Done(true) => Done(OK)
    case Done(false) => Done(NoRights)
    case Panic(why) => Panic(why)
  }

  /** getConsumer: the first value under "consumer" in the call metadata. */
  function GetConsumer(md: map<string, seq<string>>): (r: Result<string>)
    ensures r.Ok? <==> "consumer" in md && |md["consumer"]| > 0
    ensures r.Ok? ==> r.value == md["consumer"][0]
    ensures r.Err? ==> r.status == RoleMissing
  {
    if "consumer" in md && |md["consumer"]| > 0 then Ok(md["consumer"][0])
    else Err(RoleMissing)
  }

  // ---------------------------------------------------------------------
  // The effect of one call on the registries, as functions

  /** The counter under `key` raised by one; an absent key starts at one. */
  function Bump(counts: map<string, nat>, key: string): (r: map<string, nat>)
    ensures r.Keys == counts.Keys + {key}
    ensures r[key] == (if key in counts then counts[key] else 0) + 1
    ensures forall k :: k in counts && k != key ==> r[k] == counts[k]
  {
    if key in counts then counts[key := counts[key] + 1] else counts[key := 1]
  }

  /** One call of `method` by `consumer` seen by one window. */
  function Record(s: Stat, consumer: string, fullMethod: string): Stat
  {
    Stat(Bump(s.byMethod, fullMethod), Bump(s.byConsumer, consumer))
  }

  /** addStat's effect: every open window records the call. */
  function RecordAll(windows: map<string, Stat>, consumer: string, fullMethod: string): (r: map<string, Stat>)
    ensures r.Keys == windows.Keys
  {
    map w | w in windows :: Record(windows[w], consumer, fullMethod)
  }

  /** A registry whose every window recorded the call is RecordAll of the old one. */
  lemma RecordAllByWindow(before: map<string, Stat>, after: map<string, Stat>, consumer: string, fullMethod: string)
    requires forall w :: w in after <==> w in before
    requires forall w :: w in before ==> after[w] == Record(before[w], consumer, fullMethod)
    ensures after == RecordAll(before, consumer, fullMethod)
  {
    var r := RecordAll(before, consumer, fullMethod);
    forall w | w in r
      ensures after[w] == r[w]
    {
      assert r[w] == Record(before[w], consumer, fullMethod);
    }
    SameEntries(after, r);
  }

  lemma SameEntries(a: map<string, Stat>, b: map<string, Stat>)
    requires a.Keys == b.Keys
    requires forall k :: k in b ==> a[k] == b[k]
    ensures a == b
  {
  }

  /** The broadcast's effect: every sink gets one copy of the event at its end. */
  function Publish(sinks: map<string, seq<Event>>, e: Event): (r: map<string, seq<Event>>)
    ensures r.Keys == sinks.Keys
  {
    map c | c in sinks :: sinks[c] + [e]
  }

  function Count(counts: map<string, nat>, key: string): nat
  {
    if key in counts then counts[key] else 0
  }

  /** The calls of a sequence recorded one after another. */
  function Replay(s: Stat, calls: seq<(string, string)>): Stat
  {
    if |calls| == 0 then s
    else Record(Replay(s, calls[..|calls| - 1]), calls[|calls| - 1].0, calls[|calls| - 1].1)
  }

  function CallsOfMethod(calls: seq<(string, string)>, fullMethod: string): nat
  {
    if |calls| == 0 then 0
    else CallsOfMethod(calls[..|calls| - 1], fullMethod) + (if calls[|calls| - 1].1 == fullMethod then 1 else 0)
  }

  function CallsByConsumer(calls: seq<(string, string)>, consumer: string): nat
  {
    if |calls| == 0 then 0
    else CallsByConsumer(calls[..|calls| - 1], consumer) + (if calls[|calls| - 1].0 == consumer then 1 else 0)
  }

  /**
   * A window that sees a sequence of calls counts each method and each
   * consumer exactly as often as it occurs: the counters are global, not
   * filtered by the window's owner, and nothing is lost or counted twice.
   */
  lemma {:induction false} ReplayCounts(s: Stat, calls: seq<(string, string)>, fullMethod: string, consumer: string)
    ensures Count(Replay(s, calls).byMethod, fullMethod) == Count(s.byMethod, fullMethod) + CallsOfMethod(calls, fullMethod)
    ensures Count(Replay(s, calls).byConsumer, consumer) == Count(s.byConsumer, consumer) + CallsByConsumer(calls, consumer)
  {
    if |calls| > 0 {
      ReplayCounts(s, calls[..|calls| - 1], fullMethod, consumer);
    }
  }

  /** Publishing events one after another appends them, in order, to every sink. */
  function PublishAll(sinks: map<string, seq<Event>>, events: seq<Event>): map<string, seq<Event>>
  {
    if |events| == 0 then sinks
    else Publish(PublishAll(sinks, events[..|events| - 1]), events[|events| - 1])
  }

  lemma {:induction false} PublishAllAppends(sinks: map<string, seq<Event>>, events: seq<Event>)
    ensures PublishAll(sinks, events).Keys == sinks.Keys
    ensures forall c :: c in sinks ==> PublishAll(sinks, events)[c] == sinks[c] + events
  {
    if |events| > 0 {
      var front := events[..|events| - 1];
      PublishAllAppends(sinks, front);
      assert front + [events[|events| - 1]] == events;
      forall c | c in sinks ensures PublishAll(sinks, events)[c] == sinks[c] + events {
        assert PublishAll(sinks, events)[c] == sinks[c] + front + [events[|events| - 1]];
      }
    }
  }

  // ---------------------------------------------------------------------
  // What an interceptor decides, as a function

  /**
   * The observable decision of an interceptor: what it returns, whether it
   * broadcast the event, whether it recorded the stat, and whether it ran
   * the handler.
   */
  datatype Verdict = Verdict(result: Outcome<Status>, published: bool, counted: bool, invoked: bool)

  /** The unary interceptor; `reply` is what the handler returns. */
  function UnaryVerdict(roles: map<string, seq<string>>, md: map<string, seq<string>>,
                        peerAddr: Option<string>, fullMethod: string, reply: Status): Verdict
  {
    if peerAddr.None? then Verdict(Done(Error(Unknown, "Could not access context")), false, false, false)
    else match GetConsumer(md)
      case Err(status) => Verdict(Done(status), false, false, false)
      case Ok(consumer) =>
        if consumer !in roles then Verdict(Done(IncorrectRole), true, true, false)
        else match AuthenticateRole(fullMethod, roles[consumer])
          case Panic(why) => Verdict(Panic(why), true, true, false)
          case Done(OK) => Verdict(Done(reply), true, true, true)
          case Done(err) => Verdict(Done(err), true, true, false)
  }

  /** The stream interceptor: the handler runs first, authenticateRole decides the return. */
  function StreamVerdict(roles: map<string, seq<string>>, md: map<string, seq<string>>,
                         peerAddr: Option<string>, fullMethod: string): Verdict
  {
    match GetConsumer(md)
    case Err(status) => Verdict(Done(status), false, false, false)
    case Ok(consumer) =>
      if peerAddr.None? then Verdict(Done(Error(Unknown, "Can't access context")), false, false, false)
      else if consumer !in roles then Verdict(Done(IncorrectRole), true, false, false)
      else Verdict(AuthenticateRole(fullMethod, roles[consumer]), true, true, true)
  }

  /** A unary call reaches its handler exactly when the consumer's patterns grant the method. */
  lemma UnaryGatesHandler(roles: map<string, seq<string>>, md: map<string, seq<string>>,
                          peerAddr: Option<string>, fullMethod: string, reply: Status)
    ensures UnaryVerdict(roles, md, peerAddr, fullMethod, reply).invoked <==>
              peerAddr.Some? && GetConsumer(md).Ok? && GetConsumer(md).value in roles &&
              exists i :: FirstGrantAt(roles[GetConsumer(md).value], fullMethod, i)
    ensures UnaryVerdict(roles, md, peerAddr, fullMethod, reply).invoked ==>
              UnaryVerdict(roles, md, peerAddr, fullMethod, reply).result == Done(reply)
  {
  }

  /** A unary call from a consumer with an address is audited and counted, allowed or not. */
  lemma UnaryAuditsDeniedCalls(roles: map<string, seq<string>>, md: map<string, seq<string>>,
                               peerAddr: Option<string>, fullMethod: string, reply: Status)
    requires peerAddr.Some? && GetConsumer(md).Ok?
    ensures UnaryVerdict(roles, md, peerAddr, fullMethod, reply).published
    ensures UnaryVerdict(roles, md, peerAddr, fullMethod, reply).counted
    ensures GetConsumer(md).value !in roles ==>
              UnaryVerdict(roles, md, peerAddr, fullMethod, reply).result == Done(IncorrectRole) &&
              !UnaryVerdict(roles, md, peerAddr, fullMethod, reply).invoked
  {
  }

  /**
   * The asymmetry of the two call shapes: for a known consumer whose
   * patterns deny the method, the unary path does not run the handler, the
   * stream path runs it and only then reports "Role has no rights".
   * For an unknown consumer the unary path counts the call and the stream
   * path does not.
   */
  lemma StreamChecksAfterHandler(roles: map<string, seq<string>>, md: map<string, seq<string>>,
                                 peerAddr: Option<string>, fullMethod: string, reply: Status)
    requires peerAddr.Some? && GetConsumer(md).Ok?
    ensures var c := GetConsumer(md).value;
            c in roles && HasRights(roles[c], fullMethod) == Done(false) ==>
              && StreamVerdict(roles, md, peerAddr, fullMethod).invoked
              && StreamVerdict(roles, md, peerAddr, fullMethod).result == Done(NoRights)
              && !UnaryVerdict(roles, md, peerAddr, fullMethod, reply).invoked
              && UnaryVerdict(roles, md, peerAddr, fullMethod, reply).result == Done(NoRights)
    ensures GetConsumer(md).value !in roles ==>
              && !StreamVerdict(roles, md, peerAddr, fullMethod).counted
              && UnaryVerdict(roles, md, peerAddr, fullMethod, reply).counted
  {
    var c := GetConsumer(md).value;
    if c in roles && HasRights(roles[c], fullMethod) == Done(false) {
      HasRightsSpec(roles[c], fullMethod);
    }
  }

  // ---------------------------------------------------------------------
  // The Admin server's shared registries

  /** What a streaming admin handler did when it was opened. */
  const NanosPerSecond: int := 1_000_000_000

  /**
   * time.Duration(n) * time.Second for the uint64 IntervalSeconds n: the
   * conversion to int64 and the multiply both wrap around.
   */
  function TickerPeriod(intervalSeconds: nat): (d: int)
    requires intervalSeconds < 0x1_0000_0000_0000_0000
    ensures MinInt64 <= d <= MaxInt64
    ensures intervalSeconds * NanosPerSecond <= MaxInt64 ==> d == intervalSeconds * NanosPerSecond
  {
    WrapInt64(WrapInt64(intervalSeconds) * NanosPerSecond)
  }

  /**
   * Up to 9223372036 seconds the period is exact, so only 0 panics.
   */
  lemma TickerPeriodExact(intervalSeconds: nat)
    requires intervalSeconds <= 9_223_372_036
    ensures TickerPeriod(intervalSeconds) == intervalSeconds * NanosPerSecond
    ensures TickerPeriod(intervalSeconds) <= 0 <==> intervalSeconds == 0
  {
    assert intervalSeconds * NanosPerSecond <= 9_223_372_036 * NanosPerSecond;
  }

  /** Intervals past that bound wrap around: to a negative period, to 0, or to a small positive one. */
  lemma TickerPeriodCases(intervalSeconds: nat)
    requires intervalSeconds < 0x1_0000_0000_0000_0000
    ensures intervalSeconds == 9_223_372_037 ==> TickerPeriod(intervalSeconds) == -9_223_372_036_709_551_616
    ensures intervalSeconds == 0x8000_0000_0000_0000 ==> TickerPeriod(intervalSeconds) == 0
    ensures intervalSeconds == 18_446_744_074 ==> TickerPeriod(intervalSeconds) == 290_448_384
  {
    if intervalSeconds == 9_223_372_037 {
      assert WrapInt64(intervalSeconds) == 9_223_372_037;
      assert WrapInt64(9_223_372_037_000_000_000) == -9_223_372_036_709_551_616;
    } else if intervalSeconds == 0x8000_0000_0000_0000 {
      assert WrapInt64(intervalSeconds) == MinInt64;
      assert WrapInt64(MinInt64 * NanosPerSecond) == 0;
    } else if intervalSeconds == 18_446_744_074 {
      assert WrapInt64(intervalSeconds) == 18_446_744_074;
      assert WrapInt64(18_446_744_074_000_000_000) == 290_448_384;
    }
  }

  datatype Opened = Returned(status: Status) | Streaming(consumer: string) | Panicked(reason: string)

  class Admin {
    const roles: map<string, seq<string>>
    /** Admin.EventChannels: each sink is the FIFO of events not yet sent. */
    var eventChannels: map<string, seq<Event>>
    /** Admin.Stats: the window of every Statistics stream. */
    var stats: map<string, Stat>

    ghost predicate Valid()
      reads this`eventChannels
    {
      forall c :: c in eventChannels ==> |eventChannels[c]| <= SinkCapacity
    }

    /** The Admin that StartMyMicroservice builds: given ACL, empty registries. */
    constructor (acl: map<string, seq<string>>)
      ensures roles == acl && eventChannels == map[] && stats == map[]
      ensures Valid()
    {
      roles := acl;
      eventChannels := map[];
      stats := map[];
    }

    /** Logging, up to the loop: register a fresh empty sink, replacing any previous one. */
    method OpenLogging(md: map<string, seq<string>>) returns (r: Opened)
      requires Valid()
      modifies this
      ensures Valid() && stats == old(stats)
      ensures GetConsumer(md).Err? ==> r == Returned(RoleMissing) && eventChannels == old(eventChannels)
      ensures GetConsumer(md).Ok? ==>
                r == Streaming(GetConsumer(md).value) &&
                eventChannels == old(eventChannels)[GetConsumer(md).value := []]
    {
      var consumer := GetConsumer(md);
      if consumer.Err? {
        return Returned(consumer.status);
      }
      eventChannels := eventChannels[consumer.value := []];
      r := Streaming(consumer.value);
    }

    /** One step of Logging's `range` over its channel: take the oldest event, if any. */
    method NextEvent(consumer: string) returns (e: Option<Event>)
      requires Valid() && consumer in eventChannels
      modifies this
      ensures Valid() && stats == old(stats)
      ensures old(eventChannels[consumer]) == [] ==> e.None? && eventChannels == old(eventChannels)
      ensures old(eventChannels[consumer]) != [] ==>
                e == Some(old(eventChannels[consumer])[0]) &&
                eventChannels == old(eventChannels)[consumer := old(eventChannels[consumer])[1..]]
    {
      var sink := eventChannels[consumer];
      if sink == [] {
        return None;
      }
      e := Some(sink[0]);
      eventChannels := eventChannels[consumer := sink[1..]];
    }

    /** The end of Logging: the sink is deleted under the consumer key; Logging returns nil. */
    method CloseLogging(consumer: string) returns (status: Status)
      requires Valid()
      modifies this
      ensures Valid() && stats == old(stats)
      ensures status == OK
      ensures eventChannels == old(eventChannels) - {consumer}
    {
      eventChannels := eventChannels - {consumer};
      status := OK;
    }

    /**
     * Statistics, up to the loop: a zeroed window under the consumer key,
     * replacing any previous one; a ticker period that is not positive
     * (zero, or wrapped around by the int64 arithmetic) makes NewTicker
     * panic after the window is registered. A missing consumer returns nil.
     */
    method OpenStatistics(md: map<string, seq<string>>, intervalSeconds: nat) returns (r: Opened)
      requires Valid()
      requires intervalSeconds < 0x1_0000_0000_0000_0000
      modifies this
      ensures Valid() && eventChannels == old(eventChannels)
      ensures GetConsumer(md).Err? ==> r == Returned(OK) && stats == old(stats)
      ensures GetConsumer(md).Ok? ==> stats == old(stats)[GetConsumer(md).value := EmptyStat]
      ensures GetConsumer(md).Ok? && TickerPeriod(intervalSeconds) <= 0 ==> r.Panicked?
      ensures GetConsumer(md).Ok? && TickerPeriod(intervalSeconds) > 0 ==> r == Streaming(GetConsumer(md).value)
    {
      var consumer := GetConsumer(md);
      if consumer.Err? {
        return Returned(OK);
      }
      stats := stats[consumer.value := EmptyStat];
      var period := WrapInt64(WrapInt64(intervalSeconds) * NanosPerSecond);
      if period <= 0 {
        return Panicked("non-positive interval for NewTicker");
      }
      r := Streaming(consumer.value);
    }

    /** A tick of Statistics: send the window, then replace it by a zeroed one. */
    method Tick(consumer: string) returns (snapshot: Stat)
      requires Valid() && consumer in stats
      modifies this
      ensures Valid() && eventChannels == old(eventChannels)
      ensures snapshot == old(stats[consumer])
      ensures stats == old(stats)[consumer := EmptyStat]
    {
      snapshot := stats[consumer];
      stats := stats[consumer := EmptyStat];
    }

    /** Statistics on cancellation: the window is deleted. */
    method CloseStatistics(consumer: string)
      requires Valid()
      modifies this
      ensures Valid() && eventChannels == old(eventChannels)
      ensures stats == old(stats) - {consumer}
    {
      stats := stats - {consumer};
    }

    /** The interceptors' loop over EventChannels: one copy of the event to every sink. */
    method Broadcast(e: Event)
      requires Valid()
      requires forall c :: c in eventChannels ==> |eventChannels[c]| < SinkCapacity
      modifies this
      ensures Valid() && stats == old(stats)
      ensures eventChannels == Publish(old(eventChannels), e)
    {
      ghost var before := eventChannels;
      var pending := eventChannels.Keys;
      while pending != {}
        invariant pending <= before.Keys && eventChannels.Keys == before.Keys
        invariant forall c :: c in before && c !in pending ==> eventChannels[c] == before[c] + [e]
        invariant forall c :: c in pending ==> eventChannels[c] == before[c]
        invariant stats == old(stats)
        decreases pending
      {
        var c :| c in pending;
        eventChannels := eventChannels[c := eventChannels[c] + [e]];
        pending := pending - {c};
      }
    }

    /** The loop body of addStat for one window: both counters raised by one, absent ones starting at 1. */
    static method CountCall(window: Stat, consumer: string, fullMethod: string) returns (counted: Stat)
      ensures counted == Record(window, consumer, fullMethod)
    {
      var byConsumer := window.byConsumer;
      if consumer !in byConsumer {
        byConsumer := byConsumer[consumer := 1];
      } else {
        byConsumer := byConsumer[consumer := byConsumer[consumer] + 1];
      }
      var byMethod := window.byMethod;
      if fullMethod !in byMethod {
        byMethod := byMethod[fullMethod := 1];
      } else {
        byMethod := byMethod[fullMethod := byMethod[fullMethod] + 1];
      }
      counted := Stat(byMethod, byConsumer);
    }

    /** addStat: every open window counts the call once, by consumer and by method. */
    method AddStat(consumer: string, fullMethod: string)
      requires Valid()
      modifies this
      ensures Valid() && eventChannels == old(eventChannels)
      ensures stats == RecordAll(old(stats), consumer, fullMethod)
    {
      ghost var before := stats;
      var pending := stats.Keys;
      while pending != {}
        invariant pending <= before.Keys
        invariant forall w :: w in stats <==> w in before
        invariant forall w :: w in before && w !in pending ==> stats[w] == Record(before[w], consumer, fullMethod)
        invariant forall w :: w in pending ==> stats[w] == before[w]
        invariant eventChannels == old(eventChannels)
        decreases pending
      {
        var w :| w in pending;
        var counted := CountCall(stats[w], consumer, fullMethod);
        stats := stats[w := counted];
        pending := pending - {w};
      }
      RecordAllByWindow(before, stats, consumer, fullMethod);
    }

    /** The unary interceptor; `reply` is what the wrapped handler returns. */
    method UnaryIntercept(md: map<string, seq<string>>, peerAddr: Option<string>, fullMethod: string, reply: Status)
      returns (result: Outcome<Status>, invoked: bool)
      requires Valid()
      requires peerAddr.Some? && GetConsumer(md).Ok? ==> forall c :: c in eventChannels ==> |eventChannels[c]| < SinkCapacity
      modifies this
      ensures Valid()
      ensures var v := UnaryVerdict(roles, md, peerAddr, fullMethod, reply);
              && result == v.result && invoked == v.invoked
              && eventChannels == (if v.published
                                   then Publish(old(eventChannels), Event(peerAddr.value, GetConsumer(md).value, fullMethod))
                                   else old(eventChannels))
              && stats == (if v.counted then RecordAll(old(stats), GetConsumer(md).value, fullMethod) else old(stats))
    {
      invoked := false;
      if peerAddr.None? {
        return Done(Error(Unknown, "Could not access context")), false;
      }
      var consumer := GetConsumer(md);
      if consumer.Err? {
        return Done(consumer.status), false;
      }
      Broadcast(Event(peerAddr.value, consumer.value, fullMethod));
      AddStat(consumer.value, fullMethod);
      if consumer.value !in roles {
        return Done(IncorrectRole), false;
      }
      var auth := AuthenticateRole(fullMethod, roles[consumer.value]);
      if auth.Panic? {
        return Panic(auth.reason), false;
      }
      if auth.value != OK {
        return Done(auth.value), false;
      }
      invoked := true;
      result := Done(reply);
    }

    /**
     * The stream interceptor: the handler runs before authenticateRole is
     * consulted. The handler's own effect is not part of this method: the
     * stream handlers are Logging and Statistics, whose registry changes are
     * OpenLogging/CloseLogging and OpenStatistics/Tick/CloseStatistics.
     */
    method StreamIntercept(md: map<string, seq<string>>, peerAddr: Option<string>, fullMethod: string)
      returns (result: Outcome<Status>, invoked: bool)
      requires Valid()
      requires peerAddr.Some? && GetConsumer(md).Ok? ==> forall c :: c in eventChannels ==> |eventChannels[c]| < SinkCapacity
      modifies this
      ensures Valid()
      ensures var v := StreamVerdict(roles, md, peerAddr, fullMethod);
              && result == v.result && invoked == v.invoked
              && eventChannels == (if v.published
                                   then Publish(old(eventChannels), Event(peerAddr.value, GetConsumer(md).value, fullMethod))
                                   else old(eventChannels))
              && stats == (if v.counted then RecordAll(old(stats), GetConsumer(md).value, fullMethod) else old(stats))
    {
      invoked := false;
      var consumer := GetConsumer(md);
      if consumer.Err? {
        return Done(consumer.status), false;
      }
      if peerAddr.None? {
        return Done(Error(Unknown, "Can't access context")), false;
      }
      Broadcast(Event(peerAddr.value, consumer.value, fullMethod));
      if consumer.value !in roles {
        return Done(IncorrectRole), false;
      }
      AddStat(consumer.value, fullMethod);
      invoked := true;
      result := AuthenticateRole(fullMethod, roles[consumer.value]);
    }
  }

  /** A window that has just been reset counts the next call once, not on top of the old counts. */
  lemma TickThenRecord(consumer: string, fullMethod: string)
    ensures Count(Record(EmptyStat, consumer, fullMethod).byMethod, fullMethod) == 1
    ensures Count(Record(EmptyStat, consumer, fullMethod).byConsumer, consumer) == 1
  {
  }
}
