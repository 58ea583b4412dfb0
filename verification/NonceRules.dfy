/** What each answer to a presented capability means, over a run of uses. */
module NonceRules {
  import opened Common
  import opened JoinCap
  import opened NonceStore

  /** The capability is this display's and this session's for this room, and the clock is in its window. */
  predicate Admits(u: Use) {
    && u.display == Some(u.cap.agent) && u.session == Some(u.cap.session) && u.room == u.cap.room
    && u.cap.iat - 120 <= u.now <= u.cap.exp + 120
  }

  /** Use j spent its nonce, whatever the epoch then said. */
  ghost predicate Spent(uses: seq<Use>, j: nat)
    requires j < |uses|
  {
    Outcome(uses, j) == Ok || Outcome(uses, j) == StaleGeneration
  }

  /** The nonces spent before use i whose window is still open. */
  ghost function Held(uses: seq<Use>, i: nat): set<string>
    requires i < |uses|
  {
    set j | 0 <= j < i && Spent(uses, j) && uses[j].cap.exp + 120 > uses[i].now :: uses[j].cap.nonce
  }

  /** Nonce u was spent before use n with this end of its window, not yet reached at `now`. */
  ghost predicate SpentUntil(uses: seq<Use>, n: nat, u: string, until: int, now: int)
    requires n <= |uses|
  {
    && until > now
    && exists j :: 0 <= j < n && Spent(uses, j) && uses[j].cap.nonce == u && uses[j].cap.exp + SKEW_S == until
  }

  lemma SpentUntilMore(uses: seq<Use>, n: nat, u: string, until: int, now: int)
    requires n < |uses|
    ensures SpentUntil(uses, n + 1, u, until, now) <==>
              || SpentUntil(uses, n, u, until, now)
              || (until > now && Spent(uses, n) && uses[n].cap.nonce == u && uses[n].cap.exp + SKEW_S == until)
  {
  }

  lemma LiveAfter(st: Nonces, use: Use, u: string, until: int, now: int)
    requires now >= use.now && until > now
    ensures var (v, after) := Verified(st, use);
            u in after.live && after.live[u] == until <==>
              if (v == Ok || v == StaleGeneration) && u == use.cap.nonce then until == use.cap.exp + SKEW_S
              else u in st.live && st.live[u] == until
  {
  }

  /** The store's unexpired entries are the nonces spent in an open window. */
  lemma {:induction false} LiveIsSpent(uses: seq<Use>, n: nat, u: string, until: int, now: int)
    requires n <= |uses| && ClockRises(uses) && until > now && (n > 0 ==> now >= uses[n - 1].now)
    ensures var live := Run(uses[..n]).live; u in live && live[u] == until <==> SpentUntil(uses, n, u, until, now)
    decreases n, 0
  {
    if n > 0 {
      assert uses[..n][..n - 1] == uses[..n - 1];
      LiveIsSpent(uses, n - 1, u, until, now);
      SpentUntilMore(uses, n - 1, u, until, now);
      LiveAfter(Run(uses[..n - 1]), uses[n - 1], u, until, now);
      if Spent(uses, n - 1) && u == uses[n - 1].cap.nonce {
        Respent(uses, n - 1, until);
      }
    }
  }

  /** A nonce is not spent again while its window is open. */
  lemma Respent(uses: seq<Use>, n: nat, until: int)
    requires n < |uses| && ClockRises(uses) && Spent(uses, n)
    requires until > uses[n].now
    ensures !SpentUntil(uses, n, uses[n].cap.nonce, until, uses[n].now)
    decreases n, 1
  {
    LiveIsSpent(uses, n, uses[n].cap.nonce, until, uses[n].now);
  }

  lemma HeldIsLive(uses: seq<Use>, i: nat)
    requires i < |uses| && ClockRises(uses)
    ensures Unexpired(Run(uses[..i]).live, uses[i].now).Keys == Held(uses, i)
  {
    var kept, now := Unexpired(Run(uses[..i]).live, uses[i].now), uses[i].now;
    forall u | u in kept ensures u in Held(uses, i) {
      LiveIsSpent(uses, i, u, kept[u], now);
    }
    forall u | u in Held(uses, i) ensures u in kept {
      var j :| 0 <= j < i && Spent(uses, j) && uses[j].cap.exp + SKEW_S > now && uses[j].cap.nonce == u;
      LiveIsSpent(uses, i, u, uses[j].cap.exp + SKEW_S, now);
    }
  }

  /** Over every run, what each answer means. A use is accepted if and only if the capability names this display,
      session and room, the clock is in its window, its nonce is well formed and unspent, fewer than 4096 are held, and
      its epoch is not below the room's; one refused for its epoch alone has spent its nonce all the same. */
  lemma OutcomeExactly(uses: seq<Use>, i: nat)
    requires i < |uses| && ClockRises(uses)
    ensures var u, held := uses[i], Held(uses, i);
            var free := Admits(u) && u.cap.nonce != "" && u.cap.nonce !in held;
            && (Spent(uses, i) <==> free && |held| < 4096 && |u.cap.nonce| < 40)
            && (Outcome(uses, i) == Ok <==> Spent(uses, i) && (u.cap.epoch == 0 || u.cap.epoch >= u.authEpoch))
            && (Outcome(uses, i) == StoreFull <==> free && |held| >= 4096)
            && (Outcome(uses, i) == Replayed <==> Admits(u) && u.cap.nonce != "" && u.cap.nonce in held)
            && (Outcome(uses, i) == WrongAgent <==> u.display != Some(u.cap.agent))
            && (Outcome(uses, i) == WrongSession <==>
                  u.display == Some(u.cap.agent) && u.session != Some(u.cap.session))
            && (Outcome(uses, i) == WrongRoom <==>
                  u.display == Some(u.cap.agent) && u.session == Some(u.cap.session) && u.room != u.cap.room)
  {
    HeldIsLive(uses, i);
    var kept := Unexpired(Run(uses[..i]).live, uses[i].now);
    assert |kept| == |kept.Keys|;
    VerdictExactly(Run(uses[..i]), uses[i]);
  }

  /** The same of one use, against the unexpired entries of the store. */
  lemma VerdictExactly(st: Nonces, u: Use)
    ensures var v, held := Verified(st, u).0, Unexpired(st.live, u.now);
            var free := Admits(u) && u.cap.nonce != "" && u.cap.nonce !in held;
            && (v == Ok || v == StaleGeneration <==> free && |held| < 4096 && |u.cap.nonce| < 40)
            && (v == Ok ==> u.cap.epoch == 0 || u.cap.epoch >= u.authEpoch)
            && (v == StaleGeneration ==> u.cap.epoch != 0 && u.cap.epoch < u.authEpoch)
            && (v == StoreFull <==> free && |held| >= 4096)
            && (v == Replayed <==> Admits(u) && u.cap.nonce != "" && u.cap.nonce in held)
            && (v == WrongAgent <==> u.display != Some(u.cap.agent))
            && (v == WrongSession <==> u.display == Some(u.cap.agent) && u.session != Some(u.cap.session))
            && (v == WrongRoom <==>
                  u.display == Some(u.cap.agent) && u.session == Some(u.cap.session) && u.room != u.cap.room)
  {
  }

  function One(b: bool): nat {
    if b then 1 else 0
  }

  /** Each counter moves by one, and only on its own outcome. */
  lemma CountersMove(st: Nonces, u: Use)
    ensures var (v, after) := Verified(st, u);
            && after.taken == st.taken + One(v == Ok || v == StaleGeneration)
            && after.replayed == st.replayed + One(v == Replayed)
            && after.full == st.full + One(v == StoreFull)
  {
  }
}
