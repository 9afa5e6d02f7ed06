/** What the two session pages (src/app/app/page.js and src/app/page.js)
    share: the requests they send to the two routes, the messages they show
    when a route fails, and the list update after a delete, which drops every
    submitted post whatever the route says about it. */
module SessionApi {
  import opened Common
  import opened Timeline
  import opened DeleteRoute
  import AuthContext
  import opened TweetList

  const FETCH_TWEETS_FAILED := "Failed to fetch tweets"
  const FETCH_MORE_FAILED := "Failed to fetch more tweets"
  const DELETE_TWEETS_FAILED := "Failed to delete tweets"

  /** The page's `step`. */
  datatype Step = LandingStep | AuthStep | TweetsStep

  /** The page's `error` message: none, the daily-limit refusal, the clamp
      notice (`Only <remaining> deletions remaining today. Deleting <n>
      tweets.`), or a route's failure message. */
  datatype Notice =
    | NoNotice
    | LimitReached
    | Clamped(remaining: AuthContext.Remaining, deleting: nat)
    | Failure(message: string)

  /** `handleAuth`'s body: the credentials, with no cursor, so the route
      answers with the first page. */
  function AuthRequestFor(creds: Credentials): (r: TweetsRequest)
    ensures r.authToken == Some(creds.authToken) && r.csrfToken == Some(creds.csrfToken)
    ensures !Truthy(r.cursor)
  {
    TweetsRequest(Some(creds.authToken), Some(creds.csrfToken), None)
  }

  /** `handleLoadMore`'s body: `{ ...credentials, cursor: nextCursor }`;
      spreading null credentials adds no field. */
  function MoreRequestFor(credentials: Option<Credentials>, cursor: Option<string>): (r: TweetsRequest)
    ensures r.cursor == cursor
    ensures credentials.None? ==> !Truthy(r.authToken) && !Truthy(r.csrfToken)
    ensures credentials.Some? ==> r.authToken == Some(credentials.value.authToken)
                                  && r.csrfToken == Some(credentials.value.csrfToken)
  {
    match credentials
    case None => TweetsRequest(None, None, cursor)
    case Some(c) => TweetsRequest(Some(c.authToken), Some(c.csrfToken), cursor)
  }

  /** `handleDeleteSelected`'s body: `{ ...credentials, tweetIds }`. */
  function DeleteRequestFor(credentials: Option<Credentials>, ids: seq<TweetId>): (r: DeleteBody)
    ensures r.tweetIds == IdArray(ids)
    ensures credentials.None? ==> !ValidBatch(r)
    ensures credentials.Some? ==> r.authToken == Some(credentials.value.authToken)
                                  && r.csrfToken == Some(credentials.value.csrfToken)
  {
    match credentials
    case None => DeleteBody(None, None, IdArray(ids))
    case Some(c) => DeleteBody(Some(c.authToken), Some(c.csrfToken), IdArray(ids))
  }

  /** `data.error || fallback` for a response that is not a page. */
  function TweetsFailureMessage(r: TweetsResponse, fallback: string): (m: string)
    ensures fallback != "" ==> m != ""
    ensures !r.TweetsPage? && r.error != "" ==> m == r.error
    ensures r.TweetsPage? || r.error == "" ==> m == fallback
  {
    match r
    case TweetsBadRequest(e) => if e != "" then e else fallback
    case TweetsServerError(e) => if e != "" then e else fallback
    case TweetsPage(_, _, _, _) => fallback
  }

  /** `data.error || 'Failed to delete tweets'` for a response that is not a result. */
  function DeleteFailureMessage(r: DeleteResponse): (m: string)
    ensures m != ""
    ensures !r.DeleteDone? && r.error != "" ==> m == r.error
  {
    match r
    case DeleteBadRequest(e) => if e != "" then e else DELETE_TWEETS_FAILED
    case DeleteServerError(e) => if e != "" then e else DELETE_TWEETS_FAILED
    case DeleteDone(_, _) => DELETE_TWEETS_FAILED
  }

  /** `tweets.map(t => t.id)`. */
  function IdsOf(tweets: seq<Tweet>): (ids: seq<TweetId>)
    ensures |ids| == |tweets|
    ensures forall i :: 0 <= i < |tweets| ==> ids[i] == tweets[i].id
  {
    seq(|tweets|, i requires 0 <= i < |tweets| => tweets[i].id)
  }

  /** `tweets.filter(t => !deletedIds.has(t.id))`: the posts whose id was
      not submitted, in their order. */
  function RemoveIds(tweets: seq<Tweet>, ids: seq<TweetId>): (r: seq<Tweet>)
    ensures forall t :: t in r <==> t in tweets && t.id !in ids
    ensures IsSubsequence(r, tweets)
  {
    FilterIsSubsequence(tweets, (t: Tweet) => t.id !in ids);
    Filter(tweets, (t: Tweet) => t.id !in ids)
  }

  /** After a successful batch the list loses every submitted post: with
      unique ids and a submission taken from the list, it shrinks by exactly
      the number of posts submitted, however many the route deleted. */
  lemma {:induction false} ListShrinksBySubmission(tweets: seq<Tweet>, submitted: seq<Tweet>)
    requires UniqueIds(tweets)
    requires IsSubsequence(submitted, tweets)
    ensures |RemoveIds(tweets, IdsOf(submitted))| == |tweets| - |submitted|
    decreases |tweets|
  {
    var ids := IdsOf(submitted);
    if submitted == [] {
      FilterExtremes(tweets, (t: Tweet) => t.id !in ids);
    } else {
      var t0, rest := tweets[0], tweets[1..];
      assert UniqueIds(rest) by {
        forall i, j | 0 <= i < j < |rest| ensures rest[i].id != rest[j].id {
          assert rest[i] == tweets[i + 1] && rest[j] == tweets[j + 1];
        }
      }
      forall t | t in rest ensures t.id != t0.id {
        var k :| 0 <= k < |rest| && rest[k] == t;
        assert t == tweets[k + 1];
      }
      assert RemoveIds(tweets, ids)
          == (if t0.id !in ids then [t0] else []) + RemoveIds(rest, ids);
      if submitted[0] == t0 && IsSubsequence(submitted[1..], rest) {
        var ids' := IdsOf(submitted[1..]);
        assert t0.id in ids by { assert ids[0] == t0.id; }
        forall t | t in rest ensures (t.id !in ids) == (t.id !in ids') {
          if t.id in ids {
            var i :| 0 <= i < |ids| && ids[i] == t.id;
            if i == 0 {
              assert false;
            } else {
              assert ids'[i - 1] == t.id;
            }
          }
          if t.id in ids' {
            var i :| 0 <= i < |ids'| && ids'[i] == t.id;
            assert ids[i + 1] == t.id;
          }
        }
        FilterAgreeing(rest, (t: Tweet) => t.id !in ids, (t: Tweet) => t.id !in ids');
        ListShrinksBySubmission(rest, submitted[1..]);
      } else {
        assert IsSubsequence(submitted, rest);
        SubsequenceMembers(submitted, rest);
        assert t0.id !in ids by {
          forall i | 0 <= i < |ids| ensures ids[i] != t0.id {
            assert submitted[i] in rest;
          }
        }
        ListShrinksBySubmission(rest, submitted);
      }
    }
  }

  /** A submitted post whose delete failed is dropped from the list all the
      same: the ids the route reports as errors are absent afterwards. */
  lemma FailedIdsDroppedFromList(tweets: seq<Tweet>, submitted: seq<Tweet>, remote: (nat, TweetId) -> CallOutcome)
    ensures forall id :: id in Failures(IdsOf(submitted), remote) ==>
              forall t :: t in RemoveIds(tweets, IdsOf(submitted)) ==> t.id != id
  {
    var ids := IdsOf(submitted);
    FailuresAreFailedCalls(ids, remote);
    forall id | id in Failures(ids, remote) ensures id in ids {
      var j :| 0 <= j < |Failures(ids, remote)| && Failures(ids, remote)[j] == id;
      assert ids[FailedPositions(ids, remote)[j]] == id;
    }
  }

  /** A signed-in session (non-empty tokens) that submits a non-empty
      selection always reaches the delete loop: the route answers with a
      result whose `deleted` is the number of successful calls, at most the
      number of posts submitted. */
  lemma SessionBatchReachesRoute(c: Credentials, submitted: seq<Tweet>, remote: (nat, TweetId) -> CallOutcome)
    requires c.authToken != "" && c.csrfToken != "" && submitted != []
    ensures var r := DeleteResponseFor(Ok(DeleteRequestFor(Some(c), IdsOf(submitted))), remote);
            r.DeleteDone? && r.deleted == SucceededCount(IdsOf(submitted), remote) && r.deleted <= |submitted|
  {
  }

  /** Loading more with a null or empty cursor asks the route for the first
      page again: the answer is the one `handleAuth` got for the same
      credentials. */
  lemma FalsyCursorRefetchesFirstPage(
    c: Credentials, cursor: Option<string>,
    getViewer: Credentials -> Result<Viewer>,
    fetchTweets: (Credentials, string, Option<string>) -> Result<Option<seq<Instruction>>>)
    requires !Truthy(cursor)
    ensures TweetsResponseFor(Ok(MoreRequestFor(Some(c), cursor)), getViewer, fetchTweets)
         == TweetsResponseFor(Ok(AuthRequestFor(c)), getViewer, fetchTweets)
  {
    FalsyCursorFetchesFirstPage(Some(c.authToken), Some(c.csrfToken), cursor, getViewer, fetchTweets);
  }
}
