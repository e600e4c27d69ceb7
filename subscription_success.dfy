/** The page shown after checkout: it polls the user's subscription row up
    to ten times, a second apart, until the subscription is active, and
    gives up with a message after the tenth inactive answer. Unmounting the
    page stops the poll, after which it sets nothing.

    Time is counted in instants: the loop test before check `k` happens at
    instant `2 * k`, and check `k` answers at instant `2 * k + 1`. The page
    is mounted at every instant before `lifetime` and at none after, which
    covers an unmount during a check as well as during the pause. */
module SubscriptionSuccess {
  import opened Wrappers

  const MaxAttempts: nat := 10
  const TimeoutError: string :=
    "Subscription activation is taking longer than expected. Please refresh the page or contact support."
  const LoginPath: string := "/login"

  /** What one `user_subscriptions` query gives: an error (including no row
      or several rows), or the user's row. */
  datatype CheckReply = QueryFailed | Subscription(isActive: bool, subscriptionStatus: Option<string>)

  /** `checkSubscription`'s verdict; a failed query counts as not active. */
  predicate IsActive(r: CheckReply) {
    r.Subscription? && r.isActive
    && (r.subscriptionStatus == Some("active") || r.subscriptionStatus == Some("trialing"))
  }

  /** `isSubscribed` at instant `t`. */
  predicate Mounted(t: nat, lifetime: nat) { t < lifetime }

  datatype Status = Checking | Active | Failed

  /** How a poll ends: the number of checks made, and whether it set the
      status to active (and scheduled the dashboard redirect) or gave up. */
  datatype PollEnd = PollEnd(checks: nat, becameActive: bool, timedOut: bool)

  /** The poll from its `attempts`-th check on. */
  function PollFrom(replies: nat -> CheckReply, lifetime: nat, attempts: nat): (e: PollEnd)
    requires attempts <= MaxAttempts
    ensures attempts <= e.checks <= MaxAttempts
    ensures !(e.becameActive && e.timedOut)
    decreases MaxAttempts - attempts
  {
    if attempts == MaxAttempts || !Mounted(2 * attempts, lifetime) then PollEnd(attempts, false, false)
    else if IsActive(replies(attempts)) then PollEnd(attempts + 1, Mounted(2 * attempts + 1, lifetime), false)
    else if attempts + 1 == MaxAttempts then PollEnd(attempts + 1, false, Mounted(2 * attempts + 1, lifetime))
    else PollFrom(replies, lifetime, attempts + 1)
  }

  /** No active answer among checks `from` to `to - 1`. */
  predicate NoneActive(replies: nat -> CheckReply, from: nat, to: nat) {
    forall k: nat :: from <= k < to ==> !IsActive(replies(k))
  }

  /** The poll becomes active exactly when some check `k` answers active
      after only inactive answers, while the page is still mounted. */
  lemma {:induction false} ActiveIffFrom(replies: nat -> CheckReply, lifetime: nat, attempts: nat)
    requires attempts <= MaxAttempts
    ensures PollFrom(replies, lifetime, attempts).becameActive <==>
      exists k: nat :: attempts <= k < MaxAttempts && IsActive(replies(k))
        && NoneActive(replies, attempts, k) && Mounted(2 * k + 1, lifetime)
    decreases MaxAttempts - attempts
  {
    var e := PollFrom(replies, lifetime, attempts);
    if attempts == MaxAttempts {
    } else if !Mounted(2 * attempts, lifetime) {
      assert forall k: nat :: attempts <= k ==> !Mounted(2 * k + 1, lifetime);
    } else if IsActive(replies(attempts)) {
      if !e.becameActive {
        forall k: nat | attempts <= k < MaxAttempts && IsActive(replies(k)) && NoneActive(replies, attempts, k)
          ensures !Mounted(2 * k + 1, lifetime)
        {
          assert k == attempts;
        }
      }
    } else if attempts + 1 == MaxAttempts {
      forall k: nat | attempts <= k < MaxAttempts ensures !IsActive(replies(k)) {
        assert k == attempts;
      }
    } else {
      ActiveIffFrom(replies, lifetime, attempts + 1);
      if e.becameActive {
        var k: nat :| attempts + 1 <= k < MaxAttempts && IsActive(replies(k))
          && NoneActive(replies, attempts + 1, k) && Mounted(2 * k + 1, lifetime);
        assert NoneActive(replies, attempts, k);
      } else {
        forall k: nat | attempts <= k < MaxAttempts && IsActive(replies(k)) && NoneActive(replies, attempts, k)
          ensures !Mounted(2 * k + 1, lifetime)
        {
          assert k != attempts;
          assert NoneActive(replies, attempts + 1, k);
        }
      }
    }
  }

  /** The poll gives up exactly when the first ten answers are all inactive
      and the page is still mounted when the tenth arrives. */
  lemma {:induction false} TimedOutIffFrom(replies: nat -> CheckReply, lifetime: nat, attempts: nat)
    requires attempts < MaxAttempts
    ensures PollFrom(replies, lifetime, attempts).timedOut <==>
      NoneActive(replies, attempts, MaxAttempts) && Mounted(2 * MaxAttempts - 1, lifetime)
    decreases MaxAttempts - attempts
  {
    if !Mounted(2 * attempts, lifetime) {
    } else if IsActive(replies(attempts)) {
    } else if attempts + 1 == MaxAttempts {
      assert NoneActive(replies, attempts, MaxAttempts);
    } else {
      TimedOutIffFrom(replies, lifetime, attempts + 1);
      if NoneActive(replies, attempts + 1, MaxAttempts) {
        assert NoneActive(replies, attempts, MaxAttempts);
      }
    }
  }

  /** The poll stops at the first active answer. */
  lemma {:induction false} StopsAtFirstActive(replies: nat -> CheckReply, lifetime: nat, attempts: nat, k: nat)
    requires attempts <= k < MaxAttempts && IsActive(replies(k)) && NoneActive(replies, attempts, k)
    requires Mounted(2 * k, lifetime)
    ensures PollFrom(replies, lifetime, attempts).checks == k + 1
    decreases MaxAttempts - attempts
  {
    if attempts < k {
      assert !IsActive(replies(attempts));
      assert NoneActive(replies, attempts + 1, k);
      StopsAtFirstActive(replies, lifetime, attempts + 1, k);
    }
  }

  /** Once unmounted before a check, no further check is made and nothing is set. */
  lemma UnmountedPollsNothing(replies: nat -> CheckReply, lifetime: nat, attempts: nat)
    requires attempts <= MaxAttempts && !Mounted(2 * attempts, lifetime)
    ensures PollFrom(replies, lifetime, attempts) == PollEnd(attempts, false, false)
  {
  }

  /** The page's state: `status`, `error`, and whether the dashboard
      redirect timer has been started. */
  class SubscriptionPage {
    var status: Status
    var error: Option<string>
    var redirectScheduled: bool

    constructor ()
      ensures status == Checking && error.None? && !redirectScheduled
    {
      status := Checking;
      error := None;
      redirectScheduled := false;
    }

    /** `pollSubscription`, given the query's answer to each check. */
    method Poll(replies: nat -> CheckReply, lifetime: nat) returns (checks: nat)
      modifies this
      ensures var e := PollFrom(replies, lifetime, 0);
        && checks == e.checks
        && status == (if e.becameActive then Active else if e.timedOut then Failed else old(status))
        && error == (if e.timedOut then Some(TimeoutError) else old(error))
        && redirectScheduled == (e.becameActive || old(redirectScheduled))
    {
      var attempts: nat := 0;
      while attempts < MaxAttempts && Mounted(2 * attempts, lifetime)
        invariant attempts <= MaxAttempts
        invariant PollFrom(replies, lifetime, attempts) == PollFrom(replies, lifetime, 0)
        invariant status == old(status) && error == old(error) && redirectScheduled == old(redirectScheduled)
        decreases MaxAttempts - attempts
      {
        var reply := replies(attempts);
        if IsActive(reply) {
          if Mounted(2 * attempts + 1, lifetime) {
            status := Active;
            redirectScheduled := true;
          }
          return attempts + 1;
        }
        attempts := attempts + 1;
        if attempts == MaxAttempts {
          if Mounted(2 * attempts - 1, lifetime) {
            status := Failed;
            error := Some(TimeoutError);
          }
          return attempts;
        }
      }
      checks := attempts;
    }
  }

  /** The effect on mount: without a user the page goes to the login page
      and polls nothing; otherwise it polls. */
  method Mount(page: SubscriptionPage, hasUser: bool, replies: nat -> CheckReply, lifetime: nat)
    returns (navigateTo: Option<string>, checks: nat)
    modifies page
    ensures !hasUser ==>
      navigateTo == Some(LoginPath) && checks == 0 && page.status == old(page.status) && page.error == old(page.error) && page.redirectScheduled == old(page.redirectScheduled)
    ensures hasUser ==> var e := PollFrom(replies, lifetime, 0);
      && navigateTo.None? && checks == e.checks
      && page.status == (if e.becameActive then Active else if e.timedOut then Failed else old(page.status))
      && page.error == (if e.timedOut then Some(TimeoutError) else old(page.error))
      && page.redirectScheduled == (e.becameActive || old(page.redirectScheduled))
  {
    if !hasUser {
      return Some(LoginPath), 0;
    }
    checks := page.Poll(replies, lifetime);
    navigateTo := None;
  }
}
