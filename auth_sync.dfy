/**
  The identity sync guard of `AuthSync`: two refs, `syncing` and
  `lastSyncedUserId`, decide when the client asks the backend's `/api/me` to
  materialise the signed-in user, and when that user counts as synced.

  The effect body is split at its suspension points. `Trigger` is the effect
  running with the current sign-in flags and user id: it checks the guards and,
  if they pass, runs the synchronous prefix of `sync()` (setting `syncing`).
  `Complete` is everything after the awaits, given how `getToken()` and
  `fetch()` turned out. The user id the `sync` closure captured is kept as
  `inFlight` so that interleavings of triggers and completions can be stated.
 */
module IdentitySync {
  import opened Wrappers

  /** JavaScript's truthiness for an optional string: absent and "" are both false. */
  predicate Present(s: Option<string>)
  {
    s.Some? && s.value != ""
  }

  /** What the awaited calls of one sync produced. */
  datatype SyncOutcome =
    | TokenMissing          // getToken() resolved to null or ""
    | TokenThrew            // getToken() rejected
    | Responded(ok: bool)   // fetch('/api/me') resolved; ok is res.ok
    | FetchThrew            // fetch('/api/me') rejected

  /** The two refs, plus the user id captured by a sync that is still pending. */
  datatype SyncState = SyncState(syncing: bool, lastSyncedUserId: Option<string>, inFlight: Option<string>)

  /** Both refs as the component mounts, with nothing pending. */
  const Initial := SyncState(false, None, None)

  /** A pending sync always holds the flag and was started for a user not yet synced. */
  predicate Valid(s: SyncState)
  {
    s.inFlight.Some? ==> s.syncing && Present(s.inFlight) && s.lastSyncedUserId != s.inFlight
  }

  /** The three early returns of the effect, negated. */
  predicate ShouldStart(s: SyncState, signedIn: bool, loaded: bool, userId: Option<string>)
  {
    signedIn && Present(userId) && loaded && !s.syncing && s.lastSyncedUserId != userId
  }

  /** The effect runs: either it returns early, or `sync()` runs up to its first await. */
  function TriggerStep(s: SyncState, signedIn: bool, loaded: bool, userId: Option<string>): (r: SyncState)
    ensures r.lastSyncedUserId == s.lastSyncedUserId
    ensures ShouldStart(s, signedIn, loaded, userId) ==> r.syncing && r.inFlight == userId
    ensures !ShouldStart(s, signedIn, loaded, userId) ==> r == s
  {
    if ShouldStart(s, signedIn, loaded, userId) then s.(syncing := true, inFlight := userId)
    else s
  }

  /**
    The pending sync resumes after its awaits. A missing token and any response
    clear `syncing`; only an ok response records the captured user. A rejected
    `getToken()` or `fetch()` escapes `sync()` with no `finally`, so `syncing`
    stays as it was. With nothing pending there is nothing to resume.
   */
  function CompleteStep(s: SyncState, outcome: SyncOutcome): (r: SyncState)
    ensures r.inFlight.None?
    ensures r.lastSyncedUserId != s.lastSyncedUserId ==>
              s.inFlight.Some? && outcome == Responded(true) && r.lastSyncedUserId == s.inFlight
  {
    if s.inFlight.None? then s
    else match outcome
      case TokenMissing => s.(syncing := false, inFlight := None)
      case TokenThrew => s.(inFlight := None)
      case FetchThrew => s.(inFlight := None)
      case Responded(ok) =>
        if ok then SyncState(false, s.inFlight, None)
        else s.(syncing := false, inFlight := None)
  }

  /** Something that happens to the component: the effect runs, or a pending sync resumes. */
  datatype Event =
    | Trigger(signedIn: bool, loaded: bool, userId: Option<string>)
    | Complete(outcome: SyncOutcome)

  function Step(s: SyncState, e: Event): SyncState
  {
    match e
    case Trigger(signedIn, loaded, userId) => TriggerStep(s, signedIn, loaded, userId)
    case Complete(outcome) => CompleteStep(s, outcome)
  }

  /** Whether the event starts a sync (and with it, eventually, a `/api/me` request). */
  predicate Starts(s: SyncState, e: Event)
  {
    e.Trigger? && ShouldStart(s, e.signedIn, e.loaded, e.userId)
  }

  function Run(s: SyncState, events: seq<Event>): SyncState
    decreases |events|
  {
    if events == [] then s else Run(Step(s, events[0]), events[1..])
  }

  /** How many syncs a sequence of events starts. */
  function StartCount(s: SyncState, events: seq<Event>): nat
    decreases |events|
  {
    if events == [] then 0
    else (if Starts(s, events[0]) then 1 else 0) + StartCount(Step(s, events[0]), events[1..])
  }

  // ---- properties of single steps ----

  /** A sync starts exactly when all five conditions of the guard hold. */
  lemma StartCondition(s: SyncState, signedIn: bool, loaded: bool, userId: Option<string>)
    ensures Starts(s, Trigger(signedIn, loaded, userId)) <==>
              signedIn && loaded && userId.Some? && userId.value != "" && !s.syncing
              && s.lastSyncedUserId != userId
    ensures !Starts(s, Trigger(signedIn, loaded, userId)) ==> Step(s, Trigger(signedIn, loaded, userId)) == s
  {
  }

  /** Every step keeps the state consistent. */
  lemma StepValid(s: SyncState, e: Event)
    requires Valid(s)
    ensures Valid(Step(s, e))
  {
  }

  /** Once a sync has started, any further trigger is a no-op until it completes. */
  lemma SecondTriggerIsNoOp(s: SyncState, first: Event, second: Event)
    requires Starts(s, first)
    requires second.Trigger?
    ensures !Starts(Step(s, first), second)
    ensures Step(Step(s, first), second) == Step(s, first)
  {
  }

  /** A missing token clears `syncing` and leaves `lastSyncedUserId` alone. */
  lemma MissingTokenReleases(s: SyncState)
    requires Valid(s) && s.inFlight.Some?
    ensures CompleteStep(s, TokenMissing) == SyncState(false, s.lastSyncedUserId, None)
  {
  }

  /** An ok response records the user id captured when the sync was triggered. */
  lemma OkRecordsCapturedUser(s: SyncState, signedIn: bool, loaded: bool, userId: Option<string>)
    requires ShouldStart(s, signedIn, loaded, userId)
    ensures CompleteStep(TriggerStep(s, signedIn, loaded, userId), Responded(true))
              == SyncState(false, userId, None)
  {
  }

  /** A non-ok response changes nothing but the flag, so the same trigger retries. */
  lemma NonOkRetries(s: SyncState, signedIn: bool, loaded: bool, userId: Option<string>)
    requires ShouldStart(s, signedIn, loaded, userId)
    ensures var after := CompleteStep(TriggerStep(s, signedIn, loaded, userId), Responded(false));
            after == s.(inFlight := None) && ShouldStart(after, signedIn, loaded, userId)
  {
  }

  // ---- properties of runs ----

  /** Every run from a consistent state stays consistent. */
  lemma {:induction false} RunValid(s: SyncState, events: seq<Event>)
    requires Valid(s)
    ensures Valid(Run(s, events))
    decreases |events|
  {
    if events != [] {
      StepValid(s, events[0]);
      RunValid(Step(s, events[0]), events[1..]);
    }
  }

  /** Every trigger in the events is for user `a` or for no user at all. */
  predicate OnlyUser(events: seq<Event>, a: string)
  {
    forall i :: 0 <= i < |events| && events[i].Trigger? ==>
      events[i].userId.None? || events[i].userId == Some(a)
  }

  /**
    Once `a` is synced, no sequence of triggers for `a` starts another request,
    whatever the sign-in and loaded flags do: nothing resets `lastSyncedUserId`
    on sign-out, so signing out and back in does not resync.
   */
  lemma {:induction false} SyncedUserNeverResyncs(s: SyncState, a: string, events: seq<Event>)
    requires s.lastSyncedUserId == Some(a)
    requires s.inFlight.None? || s.inFlight == Some(a)
    requires OnlyUser(events, a)
    ensures StartCount(s, events) == 0
    ensures Run(s, events).lastSyncedUserId == Some(a)
    decreases |events|
  {
    if events != [] {
      assert events[0].Trigger? ==> events[0].userId.None? || events[0].userId == Some(a);
      assert OnlyUser(events[1..], a) by {
        forall i | 0 <= i < |events[1..]| && events[1..][i].Trigger?
          ensures events[1..][i].userId.None? || events[1..][i].userId == Some(a)
        {
          assert events[1..][i] == events[i + 1];
        }
      }
      SyncedUserNeverResyncs(Step(s, events[0]), a, events[1..]);
    }
  }

  /**
    With `syncing` stuck at true and nothing left to clear it, no event ever
    starts a sync again, and the state never changes.
   */
  lemma {:induction false} StuckFlagBlocksForever(s: SyncState, events: seq<Event>)
    requires s.syncing && s.inFlight.None?
    ensures StartCount(s, events) == 0
    ensures Run(s, events) == s
    decreases |events|
  {
    if events != [] {
      assert Step(s, events[0]) == s;
      StuckFlagBlocksForever(s, events[1..]);
    }
  }

  /** A rejected `getToken()` or `fetch()` leaves the guard stuck for the rest of the session. */
  lemma ThrowBlocksEveryLaterSync(s: SyncState, outcome: SyncOutcome, events: seq<Event>)
    requires Valid(s) && s.inFlight.Some?
    requires outcome == TokenThrew || outcome == FetchThrew
    ensures StartCount(CompleteStep(s, outcome), events) == 0
  {
    StuckFlagBlocksForever(CompleteStep(s, outcome), events);
  }

  /**
    Two rapid triggers for user A make one request; after it succeeds, a
    trigger for A makes none and a trigger for B makes exactly one more.
   */
  lemma SyncOncePerIdentity(a: string, b: string)
    requires a != "" && b != "" && a != b
    ensures var events := [Trigger(true, true, Some(a)), Trigger(true, true, Some(a)),
                           Complete(Responded(true)), Trigger(true, true, Some(a)),
                           Trigger(false, true, None), Trigger(true, true, Some(b))];
            StartCount(Initial, events) == 2 && Run(Initial, events).inFlight == Some(b)
  {
    var events := [Trigger(true, true, Some(a)), Trigger(true, true, Some(a)),
                   Complete(Responded(true)), Trigger(true, true, Some(a)),
                   Trigger(false, true, None), Trigger(true, true, Some(b))];
    var pending := SyncState(true, None, Some(a));
    var synced := SyncState(false, Some(a), None);
    var last := SyncState(true, Some(a), Some(b));
    assert Step(Initial, events[0]) == pending;
    assert Step(pending, events[1]) == pending;
    assert Step(pending, events[2]) == synced;
    assert Step(synced, events[3]) == synced && Step(synced, events[4]) == synced;
    assert Step(synced, events[5]) == last;
    assert events[5..] == [events[5]] && events[6..] == [];
    assert StartCount(synced, events[5..]) == 1 && Run(synced, events[5..]) == last;
    assert events[4..][1..] == events[5..] && events[3..][1..] == events[4..];
    assert StartCount(synced, events[3..]) == 1 && Run(synced, events[3..]) == last;
    assert events[2..][1..] == events[3..] && events[1..][1..] == events[2..];
    assert StartCount(pending, events[1..]) == 1 && Run(pending, events[1..]) == last;
  }

  /**
    The component itself. Its two refs are real fields; `inFlight` stands for
    the user id held by the closure of a sync that has not resumed yet.
   */
  class AuthSync {
    var syncing: bool
    var lastSyncedUserId: Option<string>
    var inFlight: Option<string>

    function State(): SyncState
      reads this
    {
      SyncState(syncing, lastSyncedUserId, inFlight)
    }

    constructor ()
      ensures State() == Initial && Valid(State())
    {
      syncing := false;
      lastSyncedUserId := None;
      inFlight := None;
    }

    /** The effect runs with the current `isSignedIn`, `isLoaded` and `user?.id`. */
    method Trigger(signedIn: bool, loaded: bool, userId: Option<string>) returns (started: bool)
      requires Valid(State())
      modifies this
      ensures Valid(State())
      ensures started == ShouldStart(old(State()), signedIn, loaded, userId)
      ensures State() == TriggerStep(old(State()), signedIn, loaded, userId)
    {
      if !signedIn || !Present(userId) || !loaded {
        return false;
      }
      if syncing {
        return false;
      }
      if lastSyncedUserId == userId {
        return false;
      }
      syncing := true;
      inFlight := userId;
      started := true;
    }

    /** The pending sync resumes with the given outcome of its awaits. */
    method Complete(outcome: SyncOutcome)
      requires Valid(State())
      modifies this
      ensures Valid(State())
      ensures State() == CompleteStep(old(State()), outcome)
    {
      if inFlight.None? {
        return;
      }
      var userId := inFlight;
      inFlight := None;
      match outcome {
        case TokenMissing =>
          syncing := false;
        case TokenThrew =>
        case FetchThrew =>
        case Responded(ok) =>
          if ok {
            lastSyncedUserId := userId;
          }
          syncing := false;
      }
    }
  }
}
