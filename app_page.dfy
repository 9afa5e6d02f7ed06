/** The signed-in deletion page (src/app/app/page.js). It holds the session
    with the platform (credentials, the posts fetched so far, the cursor, the
    running totals) and, unlike the public page, consults the account's quota
    before every batch: a refused quota sends nothing, and an unpaid account
    submits at most its remainder. The two routes are parameters (`tweetsApi`,
    `deleteApi`): each stands for the response the page's `fetch` receives for
    a request body; a response counts as `res.ok` when it is a page or a
    batch result. The account's profile and the date are parameters too. */
module AppPage {
  import opened Common
  import opened Timeline
  import opened DeleteRoute
  import opened AuthContext
  import opened TweetList
  import opened SessionApi

  const MAX_BATCH: nat := 25

  /** `tweetsToDelete`: a paid account submits the whole selection; any other
      account submits the first `min(remaining, |selected|)` posts. So an
      unpaid account never submits more than its remainder, and submits all
      it may. */
  function Submission(selected: seq<Tweet>, profile: Option<Profile>, today: string): (r: seq<Tweet>)
    ensures r <= selected
    ensures IsPaid(profile) ==> r == selected
    ensures !IsPaid(profile) ==>
              CanDeleteTweets(profile, today).remaining.Limited?
              && |r| <= CanDeleteTweets(profile, today).remaining.n
              && (|r| < |selected| ==> |r| == CanDeleteTweets(profile, today).remaining.n)
  {
    UnlimitedImpliesPaid(profile, today);
    if IsPaid(profile) then selected
    else
      match CanDeleteTweets(profile, today).remaining
      case Unlimited => selected
      case Limited(n) => selected[..Min(n, |selected|)]
  }

  /** The `maxSelection` handed to the list: 25 for a paid account, otherwise
      `min(25, remaining)`. */
  function MaxSelection(profile: Option<Profile>, today: string): (m: nat)
    ensures m <= MAX_BATCH
    ensures IsPaid(profile) ==> m == MAX_BATCH
    ensures !IsPaid(profile) ==>
              CanDeleteTweets(profile, today).remaining.Limited?
              && m == Min(MAX_BATCH, CanDeleteTweets(profile, today).remaining.n)
  {
    UnlimitedImpliesPaid(profile, today);
    if IsPaid(profile) then MAX_BATCH
    else
      match CanDeleteTweets(profile, today).remaining
      case Unlimited => MAX_BATCH
      case Limited(n) => Min(MAX_BATCH, n)
  }

  /** A selection the list allowed (at most `maxSelection` posts) is never
      clamped: it is submitted whole. */
  lemma NoClampWithinMaxSelection(selected: seq<Tweet>, profile: Option<Profile>, today: string)
    requires |selected| <= MaxSelection(profile, today)
    ensures Submission(selected, profile, today) == selected
  {
  }

  /** An unpaid account's maximum selection fits its remainder, so a selection
      made through the list is allowed by the quota whenever it is not empty. */
  lemma MaxSelectionWithinQuota(profile: Option<Profile>, today: string)
    requires !IsPaid(profile)
    ensures CanDeleteTweets(profile, today).remaining.Limited?
    ensures MaxSelection(profile, today) <= CanDeleteTweets(profile, today).remaining.n
    ensures MaxSelection(profile, today) > 0 ==> CanDeleteTweets(profile, today).allowed
  {
  }

  /** The clamp keys on `isPaid`, not on the quota: a lifetime tier whose
      status is not active is allowed 50 a day by the quota yet is handed a
      maximum of 25 and submits its selection unclamped. */
  lemma LifetimeInactiveBypassesClamp(selected: seq<Tweet>, today: string)
    requires |selected| > DAILY_LIMIT
    ensures var p := Some(Profile(LIFETIME, "cancelled", Some(0), Some(today)));
            CanDeleteTweets(p, today) == QuotaCheck(true, Limited(DAILY_LIMIT))
            && MaxSelection(p, today) == MAX_BATCH
            && |Submission(selected, p, today)| > CanDeleteTweets(p, today).remaining.n
  {
  }

  /** The page's state. */
  class AppSession {
    var step: Step
    var credentials: Option<Credentials>
    var tweets: seq<Tweet>
    var totalTweets: int
    var nextCursor: Option<string>
    var error: Notice
    var fetchLoading: bool
    var deleting: bool
    var totalDeleted: int
    var lastBatchDeleted: int

    /** The initial state: the credentials form. */
    constructor ()
      ensures step == AuthStep && credentials == None && tweets == [] && totalTweets == 0
      ensures nextCursor == None && error == NoNotice && !fetchLoading && !deleting
      ensures totalDeleted == 0 && lastBatchDeleted == 0
    {
      step, credentials, tweets, totalTweets := AuthStep, None, [], 0;
      nextCursor, error, fetchLoading, deleting := None, NoNotice, false, false;
      totalDeleted, lastBatchDeleted := 0, 0;
    }

    /** `handleAuth`: fetch the first page with the submitted credentials; on
        success keep the credentials and the page and move to the list, on
        failure show the route's message and stay. */
    method HandleAuth(creds: Credentials, tweetsApi: TweetsRequest -> TweetsResponse) returns (request: TweetsRequest)
      modifies this`step, this`credentials, this`tweets, this`totalTweets, this`nextCursor,
               this`error, this`fetchLoading
      ensures request == AuthRequestFor(creds)
      ensures !fetchLoading
      ensures var r := tweetsApi(request);
              if r.TweetsPage? then
                step == TweetsStep && credentials == Some(creds) && tweets == r.tweets
                && totalTweets == r.total && nextCursor == r.nextCursor && error == NoNotice
              else
                step == old(step) && credentials == old(credentials) && tweets == old(tweets)
                && totalTweets == old(totalTweets) && nextCursor == old(nextCursor)
                && error == Failure(TweetsFailureMessage(r, FETCH_TWEETS_FAILED))
    {
      error := NoNotice;
      fetchLoading := true;
      request := AuthRequestFor(creds);
      var answer := tweetsApi(request);
      if answer.TweetsPage? {
        credentials := Some(creds);
        tweets := answer.tweets;
        totalTweets := answer.total;
        nextCursor := answer.nextCursor;
        step := TweetsStep;
      } else {
        error := Failure(TweetsFailureMessage(answer, FETCH_TWEETS_FAILED));
      }
      fetchLoading := false;
    }

    /** `handleDeleteSelected`. A refused quota shows the limit message and
        sends nothing. Otherwise the submission (clamped for unpaid accounts,
        with a notice when the clamp bites) is sent; on success every
        submitted post leaves the list while the totals move by the route's
        `deleted`, and the profile is refreshed; on failure the route's
        message is shown. Returns the request sent, if any, and whether the
        profile refresh was asked for. */
    method HandleDeleteSelected(
      selected: seq<Tweet>, profile: Option<Profile>, today: string,
      deleteApi: DeleteBody -> DeleteResponse)
      returns (request: Option<DeleteBody>, refreshed: bool)
      modifies this`tweets, this`totalTweets, this`error, this`deleting,
               this`totalDeleted, this`lastBatchDeleted
      ensures !CanDeleteTweets(profile, today).allowed ==>
                request == None && !refreshed && error == LimitReached
                && tweets == old(tweets) && totalTweets == old(totalTweets) && deleting == old(deleting)
                && totalDeleted == old(totalDeleted) && lastBatchDeleted == old(lastBatchDeleted)
      ensures CanDeleteTweets(profile, today).allowed ==>
                var sub := Submission(selected, profile, today);
                var r := deleteApi(DeleteRequestFor(credentials, IdsOf(sub)));
                request == Some(DeleteRequestFor(credentials, IdsOf(sub))) && !deleting
                && refreshed == r.DeleteDone?
                && (if r.DeleteDone? then
                      tweets == RemoveIds(old(tweets), IdsOf(sub))
                      && totalDeleted == old(totalDeleted) + r.deleted
                      && lastBatchDeleted == r.deleted
                      && totalTweets == old(totalTweets) - r.deleted
                      && error == (if |sub| < |selected| then Clamped(CanDeleteTweets(profile, today).remaining, |sub|) else NoNotice)
                    else
                      tweets == old(tweets) && totalDeleted == old(totalDeleted) && lastBatchDeleted == 0
                      && totalTweets == old(totalTweets) && error == Failure(DeleteFailureMessage(r)))
    {
      error := NoNotice;
      var quota := CanDeleteTweets(profile, today);
      if !quota.allowed {
        error := LimitReached;
        return None, false;
      }
      var submission := Submission(selected, profile, today);
      if |submission| < |selected| {
        error := Clamped(quota.remaining, |submission|);
      }
      deleting := true;
      lastBatchDeleted := 0;
      var body := DeleteRequestFor(credentials, IdsOf(submission));
      request := Some(body);
      var answer := deleteApi(body);
      if answer.DeleteDone? {
        tweets := RemoveIds(tweets, IdsOf(submission));
        totalDeleted := totalDeleted + answer.deleted;
        lastBatchDeleted := answer.deleted;
        totalTweets := totalTweets - answer.deleted;
        refreshed := true;
      } else {
        error := Failure(DeleteFailureMessage(answer));
        refreshed := false;
      }
      deleting := false;
    }

    /** `handleLoadMore`: fetch the page after `nextCursor` (null included)
        and append it; on failure show the route's message. */
    method HandleLoadMore(tweetsApi: TweetsRequest -> TweetsResponse) returns (request: TweetsRequest)
      modifies this`tweets, this`totalTweets, this`nextCursor, this`error, this`fetchLoading
      ensures request == MoreRequestFor(credentials, old(nextCursor))
      ensures !fetchLoading
      ensures var r := tweetsApi(request);
              if r.TweetsPage? then
                tweets == old(tweets) + r.tweets && totalTweets == r.total
                && nextCursor == r.nextCursor && error == NoNotice
              else
                tweets == old(tweets) && totalTweets == old(totalTweets) && nextCursor == old(nextCursor)
                && error == Failure(TweetsFailureMessage(r, FETCH_MORE_FAILED))
    {
      fetchLoading := true;
      error := NoNotice;
      request := MoreRequestFor(credentials, nextCursor);
      var answer := tweetsApi(request);
      if answer.TweetsPage? {
        tweets := tweets + answer.tweets;
        totalTweets := answer.total;
        nextCursor := answer.nextCursor;
      } else {
        error := Failure(TweetsFailureMessage(answer, FETCH_MORE_FAILED));
      }
      fetchLoading := false;
    }

    /** `handleReset`: back to the credentials form with an empty session. */
    method HandleReset()
      modifies this`step, this`credentials, this`tweets, this`totalTweets, this`nextCursor,
               this`error, this`totalDeleted, this`lastBatchDeleted
      ensures step == AuthStep && credentials == None && tweets == [] && totalTweets == 0
      ensures nextCursor == None && error == NoNotice && totalDeleted == 0 && lastBatchDeleted == 0
    {
      step, credentials, tweets, totalTweets := AuthStep, None, [], 0;
      nextCursor, error, totalDeleted, lastBatchDeleted := None, NoNotice, 0, 0;
    }
  }
}
