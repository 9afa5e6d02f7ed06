/** The public page (src/app/page.js): the same session as the signed-in
    page, with no quota at all. It opens on a landing step whose only
    controls are links to other pages, and the credentials form's back
    button returns to it. The routes are parameters as in `AppPage`. */
module HomePage {
  import opened Common
  import opened Timeline
  import opened DeleteRoute
  import opened TweetList
  import opened SessionApi

  /** What can move the page's `step`: the form's back button and a
      successful first fetch (both rendered on the credentials step only),
      and the list's reset (rendered on the list step only). */
  datatype StepEvent = Back | FirstPageLoaded | Reset

  /** The step after an event; an event whose control is not rendered on the
      current step leaves it unchanged. */
  function NextStep(step: Step, e: StepEvent): (next: Step)
    ensures step == LandingStep ==> next == LandingStep
    ensures next == TweetsStep <==> (step == TweetsStep && e != Reset) || (step == AuthStep && e == FirstPageLoaded)
  {
    match (step, e)
    case (AuthStep, Back) => LandingStep
    case (AuthStep, FirstPageLoaded) => TweetsStep
    case (TweetsStep, Reset) => AuthStep
    case _ => step
  }

  /** The step after a sequence of events. */
  function Steps(step: Step, events: seq<StepEvent>): Step
    decreases |events|
  {
    if events == [] then step else Steps(NextStep(step, events[0]), events[1..])
  }

  /** The page starts on the landing step and nothing on it leads to the
      credentials form: from the initial state the list is never reached. */
  lemma {:induction false} LandingIsFinal(events: seq<StepEvent>)
    ensures Steps(LandingStep, events) == LandingStep
  {
    if events != [] {
      LandingIsFinal(events[1..]);
    }
  }

  /** The public page renders the list without a `maxSelection`, so the
      list's default cap of 25 applies: a selection kept within it hands the
      page at most 25 posts to send, when the ids are unique. */
  lemma PublicBatchWithinDefaultCap(tweets: seq<Tweet>, selected: set<TweetId>)
    requires UniqueIds(tweets) && |selected| <= DEFAULT_MAX_SELECTION
    ensures |IdsOf(SelectedTweets(tweets, selected))| <= DEFAULT_MAX_SELECTION
  {
    SelectedTweetsBounded(tweets, selected);
  }

  /** The page's state. Each handler that moves `step` does what `NextStep`
      says for its event on the step where its control is rendered. */
  class HomeSession {
    var step: Step
    var credentials: Option<Credentials>
    var tweets: seq<Tweet>
    var totalTweets: int
    var nextCursor: Option<string>
    var error: Notice
    var fetchLoading: bool
    var deleting: bool
    var totalDeleted: int
    var lastBatchDeleted: int

    /** The initial state: the landing step. */
    constructor ()
      ensures step == LandingStep && credentials == None && tweets == [] && totalTweets == 0
      ensures nextCursor == None && error == NoNotice && !fetchLoading && !deleting
      ensures totalDeleted == 0 && lastBatchDeleted == 0
    {
      step, credentials, tweets, totalTweets := LandingStep, None, [], 0;
      nextCursor, error, fetchLoading, deleting := None, NoNotice, false, false;
      totalDeleted, lastBatchDeleted := 0, 0;
    }

    /** The form's back button. */
    method HandleBack()
      modifies this`step
      ensures step == LandingStep
      ensures old(step) == AuthStep ==> step == NextStep(old(step), Back)
    {
      step := LandingStep;
    }

    /** `handleAuth`, as on the signed-in page. */
    method HandleAuth(creds: Credentials, tweetsApi: TweetsRequest -> TweetsResponse) returns (request: TweetsRequest)
      modifies this`step, this`credentials, this`tweets, this`totalTweets, this`nextCursor,
               this`error, this`fetchLoading
      ensures request == AuthRequestFor(creds)
      ensures !fetchLoading
      ensures old(step) == AuthStep && tweetsApi(request).TweetsPage? ==> step == NextStep(old(step), FirstPageLoaded)
      ensures var r := tweetsApi(request);
              if r.TweetsPage? then
                step == TweetsStep && credentials == Some(creds) && tweets == r.tweets
                && totalTweets == r.total && nextCursor == r.nextCursor && error == NoNotice
              else
                step == old(step) && credentials == old(credentials) && tweets == old(tweets)
                && totalTweets == old(totalTweets) && nextCursor == old(nextCursor)
                && error == Failure(TweetsFailureMessage(r, FETCH_TWEETS_FAILED))
    {
      error := NoNotice;
      fetchLoading := true;
      request := AuthRequestFor(creds);
      var answer := tweetsApi(request);
      if answer.TweetsPage? {
        credentials := Some(creds);
        tweets := answer.tweets;
        totalTweets := answer.total;
        nextCursor := answer.nextCursor;
        step := TweetsStep;
      } else {
        error := Failure(TweetsFailureMessage(answer, FETCH_TWEETS_FAILED));
      }
      fetchLoading := false;
    }

    /** `handleDeleteSelected` without a quota: the whole selection is sent (at most
        the list's default cap, see `PublicBatchWithinDefaultCap`);
        on success every submitted post leaves the list while the totals move
        by the route's `deleted`. */
    method HandleDeleteSelected(selected: seq<Tweet>, deleteApi: DeleteBody -> DeleteResponse)
      returns (request: DeleteBody)
      modifies this`tweets, this`totalTweets, this`error, this`deleting,
               this`totalDeleted, this`lastBatchDeleted
      ensures request == DeleteRequestFor(credentials, IdsOf(selected))
      ensures !deleting
      ensures var r := deleteApi(request);
              if r.DeleteDone? then
                tweets == RemoveIds(old(tweets), IdsOf(selected))
                && totalDeleted == old(totalDeleted) + r.deleted
                && lastBatchDeleted == r.deleted
                && totalTweets == old(totalTweets) - r.deleted
                && error == NoNotice
              else
                tweets == old(tweets) && totalDeleted == old(totalDeleted) && lastBatchDeleted == 0
                && totalTweets == old(totalTweets) && error == Failure(DeleteFailureMessage(r))
    {
      error := NoNotice;
      deleting := true;
      lastBatchDeleted := 0;
      request := DeleteRequestFor(credentials, IdsOf(selected));
      var answer := deleteApi(request);
      if answer.DeleteDone? {
        tweets := RemoveIds(tweets, IdsOf(selected));
        totalDeleted := totalDeleted + answer.deleted;
        lastBatchDeleted := answer.deleted;
        totalTweets := totalTweets - answer.deleted;
      } else {
        error := Failure(DeleteFailureMessage(answer));
      }
      deleting := false;
    }

    /** `handleLoadMore`, as on the signed-in page. */
    method HandleLoadMore(tweetsApi: TweetsRequest -> TweetsResponse) returns (request: TweetsRequest)
      modifies this`tweets, this`totalTweets, this`nextCursor, this`error, this`fetchLoading
      ensures request == MoreRequestFor(credentials, old(nextCursor))
      ensures !fetchLoading
      ensures var r := tweetsApi(request);
              if r.TweetsPage? then
                tweets == old(tweets) + r.tweets && totalTweets == r.total
                && nextCursor == r.nextCursor && error == NoNotice
              else
                tweets == old(tweets) && totalTweets == old(totalTweets) && nextCursor == old(nextCursor)
                && error == Failure(TweetsFailureMessage(r, FETCH_MORE_FAILED))
    {
      fetchLoading := true;
      error := NoNotice;
      request := MoreRequestFor(credentials, nextCursor);
      var answer := tweetsApi(request);
      if answer.TweetsPage? {
        tweets := tweets + answer.tweets;
        totalTweets := answer.total;
        nextCursor := answer.nextCursor;
      } else {
        error := Failure(TweetsFailureMessage(answer, FETCH_MORE_FAILED));
      }
      fetchLoading := false;
    }

    /** `handleReset`: to the credentials form, not to the landing step. */
    method HandleReset()
      modifies this`step, this`credentials, this`tweets, this`totalTweets, this`nextCursor,
               this`error, this`totalDeleted, this`lastBatchDeleted
      ensures step == AuthStep && credentials == None && tweets == [] && totalTweets == 0
      ensures nextCursor == None && error == NoNotice && totalDeleted == 0 && lastBatchDeleted == 0
      ensures old(step) == TweetsStep ==> step == NextStep(old(step), Reset)
    {
      step, credentials, tweets, totalTweets := AuthStep, None, [], 0;
      nextCursor, error, totalDeleted, lastBatchDeleted := None, NoNotice, 0, 0;
    }
  }
}
