/** The account dashboard's derived values (src/app/dashboard/page.js): the
    tier badge and today's usage. They are computed from the profile
    independently of `canDeleteTweets`, and agree with it only on loaded,
    unpaid profiles. */
module Dashboard {
  import opened Common
  import opened AuthContext

  datatype Badge = LifetimeBadge | ProBadge | FreeBadge

  /** `getTierBadge`. */
  function TierBadge(profile: Option<Profile>): (b: Badge)
    ensures b == LifetimeBadge <==> IsLifetime(profile)
    ensures b == ProBadge <==> IsPro(profile) && !IsLifetime(profile)
  {
    if profile.Some? && profile.value.subscriptionTier == LIFETIME then LifetimeBadge
    else if profile.Some? && profile.value.subscriptionTier == PRO && profile.value.subscriptionStatus == ACTIVE then ProBadge
    else FreeBadge
  }

  /** The badge is Free exactly for the accounts the context treats as unpaid. */
  lemma BadgeMatchesPaid(profile: Option<Profile>)
    ensures TierBadge(profile) != FreeBadge <==> IsPaid(profile)
  {
  }

  /** `deletedToday`: the stored count (null read as 0) on the stored day, 0 otherwise. */
  function DeletedToday(profile: Option<Profile>, today: string): (n: int)
    ensures profile.None? || profile.value.lastDeletionDate != Some(today) ==> n == 0
    ensures profile.Some? && profile.value.lastDeletionDate == Some(today) ==> n == UsedCount(profile.value)
  {
    if profile.Some? && profile.value.lastDeletionDate == Some(today) then UsedCount(profile.value) else 0
  }

  /** `remainingToday`: 'Unlimited' for paid accounts, else `max(0, 50 - deletedToday)`. */
  function RemainingToday(profile: Option<Profile>, today: string): (r: Remaining)
    ensures r.Unlimited? <==> IsPaid(profile)
    ensures r.Limited? ==> r.n >= 0
  {
    if IsPaid(profile) then Unlimited
    else
      var left := DAILY_LIMIT - DeletedToday(profile, today);
      Limited(if left > 0 then left else 0)
  }

  /** The finite figure lies in [0, 50] when the stored count is not negative. */
  lemma RemainingTodayBounded(profile: Option<Profile>, today: string)
    requires profile.Some? ==> UsedCount(profile.value) >= 0
    ensures RemainingToday(profile, today).Limited? ==> 0 <= RemainingToday(profile, today).n <= DAILY_LIMIT
  {
  }

  /** For a loaded, unpaid profile the dashboard shows the remainder that
      `canDeleteTweets` enforces. */
  lemma AgreesWithQuotaWhenFree(p: Profile, today: string)
    requires !IsPaid(Some(p))
    ensures RemainingToday(Some(p), today) == CanDeleteTweets(Some(p), today).remaining
  {
  }

  /** The two computations disagree elsewhere: with no profile loaded the
      dashboard shows 50 while nothing may be deleted, and an inactive
      lifetime tier shows 'Unlimited' while the free quota applies. */
  lemma DisagreesWithQuota(today: string)
    ensures RemainingToday(None, today) == Limited(DAILY_LIMIT)
    ensures CanDeleteTweets(None, today).remaining == Limited(0)
    ensures var p := Some(Profile(LIFETIME, "cancelled", Some(10), Some(today)));
            RemainingToday(p, today) == Unlimited
            && CanDeleteTweets(p, today).remaining == Limited(DAILY_LIMIT - 10)
  {
  }
}
