/** `QuickMessagesApp`: starts the two services once. A service that fails
    is an oracle outcome: `profilesOk`/`messagesOk` say whether
    `ProfileService.initialize()` and `MessageService.initialize()` complete;
    a failing one is taken to fail before its first write. */
module AppMain {
  import opened Events
  import opened Store
  import opened Records
  import opened Database
  import opened Defaults
  import Profiles
  import Messages

  /** How many times `APP_READY` was emitted. */
  function ReadyCount(t: seq<Effect>): (n: nat)
    ensures n <= |t|
    ensures n == 0 <==> forall i | 0 <= i < |t| :: t[i] != Emitted(AppReady)
  {
    if t == [] then 0 else ReadyCount(t[..|t| - 1]) + (if t[|t| - 1] == Emitted(AppReady) then 1 else 0)
  }

  lemma {:induction false} ReadyCountAppend(a: seq<Effect>, b: seq<Effect>)
    ensures ReadyCount(a + b) == ReadyCount(a) + ReadyCount(b)
    decreases |b|
  {
    if b == [] {
      assert a + b == a;
    } else {
      var b' := b[..|b| - 1];
      assert (a + b)[..|a + b| - 1] == a + b';
      assert (a + b)[|a + b| - 1] == b[|b| - 1];
      ReadyCountAppend(a, b');
    }
  }

  /** The services never emit `APP_READY`. */
  lemma ServicesNotReady(p: Table<Profile>, c: Table<Category>, starId: string)
    ensures ReadyCount(Profiles.InitTrace(p, starId)) == 0
    ensures ReadyCount(Messages.InitTrace(c)) == 0
  {
    var ps := Profiles.ProfilePuts(DefaultProfiles(starId));
    var cs := Messages.CategoryPuts(DefaultCategories);
    assert forall i | 0 <= i < |ps| :: ps[i].Wrote?;
    assert forall i | 0 <= i < |cs| :: cs[i].Wrote?;
  }

  datatype Attempt = Attempt(profilesOk: bool, messagesOk: bool)

  class QuickMessagesApp {
    var isInitialized: bool

    constructor()
      ensures !isInitialized
    {
      isInitialized := false;
    }

    /** `init()`: returns at once when already initialised; otherwise
        initialises profiles, then messages, and only when both complete sets
        `isInitialized` and emits `APP_READY`. A failure leaves the flag
        false, so a later `init()` tries again. */
    method Init(db: Database, starId: string, profilesOk: bool, messagesOk: bool)
      requires db.Valid()
      modifies this, db
      ensures db.Valid()
      ensures old(isInitialized) ==>
                isInitialized && db.profiles == old(db.profiles) && db.categories == old(db.categories)
                && db.trace == old(db.trace)
      ensures !old(isInitialized) && !profilesOk ==>
                !isInitialized && db.profiles == old(db.profiles) && db.categories == old(db.categories)
                && db.trace == old(db.trace)
      ensures !old(isInitialized) && profilesOk && !messagesOk ==>
                && !isInitialized
                && db.profiles == Profiles.AfterInit(old(db.profiles), starId)
                && db.categories == old(db.categories)
                && db.trace == old(db.trace) + Profiles.InitTrace(old(db.profiles), starId)
      ensures !old(isInitialized) && profilesOk && messagesOk ==>
                && isInitialized
                && db.profiles == Profiles.AfterInit(old(db.profiles), starId)
                && db.categories == Messages.AfterInit(old(db.categories))
                && db.trace == old(db.trace) + Profiles.InitTrace(old(db.profiles), starId)
                                + Messages.InitTrace(old(db.categories)) + [Emitted(AppReady)]
      ensures ReadyCount(db.trace) == ReadyCount(old(db.trace)) + (if isInitialized && !old(isInitialized) then 1 else 0)
    {
      if isInitialized {
        return;
      }
      var ok := InitializeServices(db, starId, profilesOk, messagesOk);
      if ok {
        var t := db.trace;
        isInitialized := true;
        db.Notify(AppReady);
        ReadyCountAppend(t, [Emitted(AppReady)]);
      }
    }

    /** `initializeServices()`: profiles first, then messages; a failing
        service stops the sequence. Neither service emits `APP_READY`. */
    method InitializeServices(db: Database, starId: string, profilesOk: bool, messagesOk: bool) returns (ok: bool)
      requires db.Valid()
      modifies db
      ensures db.Valid() && ok == (profilesOk && messagesOk)
      ensures db.profiles == (if profilesOk then Profiles.AfterInit(old(db.profiles), starId) else old(db.profiles))
      ensures db.categories == (if ok then Messages.AfterInit(old(db.categories)) else old(db.categories))
      ensures db.trace == old(db.trace) + (if profilesOk then Profiles.InitTrace(old(db.profiles), starId) else [])
                          + (if ok then Messages.InitTrace(old(db.categories)) else [])
      ensures ReadyCount(db.trace) == ReadyCount(old(db.trace))
    {
      ServicesNotReady(db.profiles, db.categories, starId);
      var t0 := db.trace;
      if !profilesOk {
        ok := false;
        assert t0 + [] + [] == t0;
        return;
      }
      Profiles.Initialize(db, starId);
      ReadyCountAppend(t0, Profiles.InitTrace(old(db.profiles), starId));
      var t1 := db.trace;
      if !messagesOk {
        ok := false;
        assert t1 + [] == t1;
        return;
      }
      Messages.Initialize(db);
      ReadyCountAppend(t1, Messages.InitTrace(old(db.categories)));
      ok := true;
    }

    /** `init()` called once per attempt: the app ends initialised exactly
        when some attempt succeeds (or it already was), and `APP_READY` is
        emitted at most once over all the attempts. */
    method InitAttempts(db: Database, starId: string, attempts: seq<Attempt>)
      requires db.Valid()
      modifies this, db
      ensures db.Valid()
      ensures isInitialized == (old(isInitialized) || exists k | 0 <= k < |attempts| :: attempts[k].profilesOk && attempts[k].messagesOk)
      ensures ReadyCount(db.trace) == ReadyCount(old(db.trace)) + (if isInitialized && !old(isInitialized) then 1 else 0)
    {
      for i := 0 to |attempts|
        invariant db.Valid()
        invariant isInitialized == (old(isInitialized) || exists k | 0 <= k < i :: attempts[k].profilesOk && attempts[k].messagesOk)
        invariant ReadyCount(db.trace) == ReadyCount(old(db.trace)) + (if isInitialized && !old(isInitialized) then 1 else 0)
      {
        Init(db, starId, attempts[i].profilesOk, attempts[i].messagesOk);
      }
    }
  }
}
