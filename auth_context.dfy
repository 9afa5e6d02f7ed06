/** The account context (src/context/AuthContext.js): the signed-in user, the
    profile row read from the profile store, and the quota ledger derived from
    it. Free accounts may delete 50 posts per calendar day; the day's count is
    reset lazily, by comparing the stored date with today's. The profile store
    and the sign-out call are parameters; `today` is the UTC date string
    (yyyy-mm-dd) the code computes from the clock. */
module AuthContext {
  import opened Common

  const DAILY_LIMIT := 50
  const PRO := "pro"
  const LIFETIME := "lifetime"
  const ACTIVE := "active"

  /** A row of the `profiles` table. A null tier or status compares unequal to
      every literal, as does any string other than the ones tested. */
  datatype Profile = Profile(
    subscriptionTier: string,
    subscriptionStatus: string,
    tweetsDeletedToday: Option<int>,
    lastDeletionDate: Option<string>)

  /** The quota's `remaining`: a count, or JavaScript's `Infinity`. */
  datatype Remaining = Limited(n: int) | Unlimited

  /** What `canDeleteTweets` returns. */
  datatype QuotaCheck = QuotaCheck(allowed: bool, remaining: Remaining)

  /** `tweets_deleted_today || 0`. */
  function UsedCount(p: Profile): int {
    p.tweetsDeletedToday.GetOr(0)
  }

  /** `isPro`: an active pro tier, which is never held back by the quota. */
  function IsPro(profile: Option<Profile>): (b: bool)
    ensures b ==> forall today :: CanDeleteTweets(profile, today) == QuotaCheck(true, Unlimited)
  {
    profile.Some? && profile.value.subscriptionTier == PRO && profile.value.subscriptionStatus == ACTIVE
  }

  /** `isLifetime`: a lifetime tier whatever its status. The quota treats it
      as unlimited only while the status is active. */
  function IsLifetime(profile: Option<Profile>): (b: bool)
    ensures b ==> profile.Some?
    ensures b ==> forall today :: CanDeleteTweets(profile, today).remaining.Unlimited?
                                  <==> profile.value.subscriptionStatus == ACTIVE
  {
    profile.Some? && profile.value.subscriptionTier == LIFETIME
  }

  /** `isPaid` as the context computes it: an active pro tier, or a lifetime
      tier whatever its status. An account that is not paid is always held
      to the daily quota. */
  function IsPaid(profile: Option<Profile>): (b: bool)
    ensures b ==> profile.Some?
    ensures !b ==> forall today :: CanDeleteTweets(profile, today).remaining.Limited?
  {
    (profile.Some? && profile.value.subscriptionTier == PRO && profile.value.subscriptionStatus == ACTIVE)
    || (profile.Some? && profile.value.subscriptionTier == LIFETIME)
  }

  /** `canDeleteTweets`. A quota is allowed exactly when something remains,
      and a finite remainder is never negative. */
  function CanDeleteTweets(profile: Option<Profile>, today: string): (q: QuotaCheck)
    ensures q.remaining.Limited? ==> q.remaining.n >= 0
    ensures q.allowed <==> q.remaining.Unlimited? || q.remaining.n > 0
  {
    if profile.None? then QuotaCheck(false, Limited(0))
    else
      var p := profile.value;
      if (p.subscriptionTier == PRO || p.subscriptionTier == LIFETIME) && p.subscriptionStatus == ACTIVE then
        QuotaCheck(true, Unlimited)
      else if p.lastDeletionDate != Some(today) then
        QuotaCheck(true, Limited(DAILY_LIMIT))
      else
        var remaining := DAILY_LIMIT - UsedCount(p);
        QuotaCheck(remaining > 0, Limited(if remaining > 0 then remaining else 0))
  }

  /** `isPaid` is `isPro || isLifetime`. */
  lemma IsPaidIsProOrLifetime(profile: Option<Profile>)
    ensures IsPaid(profile) <==> IsPro(profile) || IsLifetime(profile)
  {
  }

  /** With no profile loaded nothing may be deleted. */
  lemma NoProfileNoQuota(today: string)
    ensures CanDeleteTweets(None, today) == QuotaCheck(false, Limited(0))
  {
  }

  /** An active pro or lifetime tier is unlimited, whatever the stored count. */
  lemma ActivePaidTierUnlimited(p: Profile, today: string)
    requires p.subscriptionTier == PRO || p.subscriptionTier == LIFETIME
    requires p.subscriptionStatus == ACTIVE
    ensures CanDeleteTweets(Some(p), today) == QuotaCheck(true, Unlimited)
  {
  }

  /** The lazy reset: on a day other than the stored one the full allotment
      is available, whatever `tweets_deleted_today` says. */
  lemma NewDayFullAllotment(p: Profile, today: string)
    requires !((p.subscriptionTier == PRO || p.subscriptionTier == LIFETIME) && p.subscriptionStatus == ACTIVE)
    requires p.lastDeletionDate != Some(today)
    ensures CanDeleteTweets(Some(p), today) == QuotaCheck(true, Limited(DAILY_LIMIT))
  {
  }

  /** On the stored day the remainder is `max(0, 50 - used)`, and deleting is
      allowed iff `50 - used > 0`; a missing count counts as 0. */
  lemma SameDayRemainder(p: Profile, today: string)
    requires !((p.subscriptionTier == PRO || p.subscriptionTier == LIFETIME) && p.subscriptionStatus == ACTIVE)
    requires p.lastDeletionDate == Some(today)
    ensures CanDeleteTweets(Some(p), today).remaining
            == Limited(if DAILY_LIMIT - UsedCount(p) > 0 then DAILY_LIMIT - UsedCount(p) else 0)
    ensures CanDeleteTweets(Some(p), today).allowed <==> DAILY_LIMIT - UsedCount(p) > 0
    ensures p.tweetsDeletedToday.None? ==> CanDeleteTweets(Some(p), today) == QuotaCheck(true, Limited(DAILY_LIMIT))
  {
  }

  /** A finite remainder lies in [0, 50] when the stored count is not negative. */
  lemma RemainderBounded(profile: Option<Profile>, today: string)
    requires profile.Some? ==> UsedCount(profile.value) >= 0
    ensures CanDeleteTweets(profile, today).remaining.Limited?
            ==> 0 <= CanDeleteTweets(profile, today).remaining.n <= DAILY_LIMIT
  {
  }

  /** An unlimited quota implies a paid account; so a caller that is not paid
      always sees a finite remainder. */
  lemma UnlimitedImpliesPaid(profile: Option<Profile>, today: string)
    ensures CanDeleteTweets(profile, today).remaining.Unlimited? ==> IsPaid(profile)
  {
  }

  /** The converse fails: a lifetime tier whose status is not active counts
      as paid, yet its quota is the free one. */
  lemma LifetimeInactivePaidButLimited(today: string)
    ensures var p := Some(Profile(LIFETIME, "cancelled", Some(50), Some(today)));
            IsPaid(p) && CanDeleteTweets(p, today) == QuotaCheck(false, Limited(0))
  {
  }

  /** What the profile store answers for `select('*').eq('id', id).single()`. */
  datatype ProfileRead = ProfileRead(data: Option<Profile>, error: Option<string>)

  /** The provider's state: the signed-in user (by id) and their profile. */
  class AuthState {
    var user: Option<string>
    var profile: Option<Profile>
    var loading: bool

    constructor ()
      ensures user == None && profile == None && loading
    {
      user, profile, loading := None, None, true;
    }

    /** `fetchProfile`: the profile is replaced only when the store returned
        data without an error; the data is returned either way. */
    method FetchProfile(userId: string, store: string -> ProfileRead) returns (data: Option<Profile>)
      modifies this`profile
      ensures data == store(userId).data
      ensures profile == if store(userId).error.None? && data.Some? then data else old(profile)
    {
      var answer := store(userId);
      data := answer.data;
      if answer.error.None? && data.Some? {
        profile := data;
      }
    }

    /** `signOut`: user and profile are cleared only when the provider reports
        no error; the error is handed back. */
    method SignOut(providerError: Option<string>) returns (error: Option<string>)
      modifies this`user, this`profile
      ensures error == providerError
      ensures providerError.None? ==> user == None && profile == None
      ensures providerError.Some? ==> user == old(user) && profile == old(profile)
    {
      if providerError.None? {
        user := None;
        profile := None;
      }
      error := providerError;
    }

    /** `refreshProfile`: reload the signed-in user's profile; without a user
        nothing happens. */
    method RefreshProfile(store: string -> ProfileRead)
      modifies this`profile
      ensures user.None? ==> profile == old(profile)
      ensures user.Some? ==> profile == (var r := store(user.value);
                                         if r.error.None? && r.data.Some? then r.data else old(profile))
    {
      if user.Some? {
        var _ := FetchProfile(user.value, store);
      }
    }
  }
}
