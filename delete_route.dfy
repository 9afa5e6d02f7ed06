/** The batch deletion route (src/app/api/delete/route.js). It validates the
    request, deletes the posts one at a time in input order, sorts every id
    into "deleted" or "errors", and then, best effort, charges the confirmed
    deletions to the account's daily ledger.

    The remote `DeleteTweet` call is the parameter `remote`: `remote(k, id)`
    is how the k-th call of the batch (counting from 0) ends. Indexing by the
    call number lets the same id meet different answers when it is submitted
    twice. The signed-in user, the stored ledger row and today's date are
    parameters too. */
module DeleteRoute {
  import opened Common
  import AuthContext

  const MISSING_CREDENTIALS := "Missing credentials"
  const NO_TWEET_IDS := "No tweet IDs provided"
  const DELETE_FAILED := "Failed to delete tweets"

  /** How one remote delete call ends: a 2xx answer, a non-2xx answer
      (`deleteTweet` returns false), or a thrown transport error. */
  datatype CallOutcome = Deleted | Rejected | Threw

  /** The `tweetIds` field: absent or null, present but not an array, or an array. */
  datatype IdsField = IdsMissing | NotAnArray | IdArray(ids: seq<TweetId>)

  /** The JSON body of a POST to the route. */
  datatype DeleteBody = DeleteBody(authToken: Option<string>, csrfToken: Option<string>, tweetIds: IdsField)

  /** The route's answers: 400 with a reason, 500 with a message, or the
      batch result, whose `errors` field is omitted when nothing failed. */
  datatype DeleteResponse =
    | DeleteBadRequest(error: string)
    | DeleteServerError(error: string)
    | DeleteDone(deleted: nat, errors: Option<seq<TweetId>>)

  /** The two ledger columns the route reads. */
  datatype LedgerRow = LedgerRow(tweetsDeletedToday: Option<int>, lastDeletionDate: Option<string>)

  /** The update the route sends to the profile store. */
  datatype LedgerWrite = LedgerWrite(tweetsDeletedToday: int, lastDeletionDate: string)

  // ---------------------------------------------------------------------
  // The batch

  /** The number of calls among the first |ids| that deleted their post. */
  function SucceededCount(ids: seq<TweetId>, remote: (nat, TweetId) -> CallOutcome): (n: nat)
    ensures n <= |ids|
    decreases |ids|
  {
    if ids == [] then 0
    else
      var last := |ids| - 1;
      SucceededCount(ids[..last], remote) + (if remote(last, ids[last]) == Deleted then 1 else 0)
  }

  /** The ids whose call did not delete, in input order. */
  function Failures(ids: seq<TweetId>, remote: (nat, TweetId) -> CallOutcome): (r: seq<TweetId>)
    ensures |r| <= |ids|
    ensures forall id :: id in r ==> id in ids
    decreases |ids|
  {
    if ids == [] then []
    else
      var last := |ids| - 1;
      Failures(ids[..last], remote) + (if remote(last, ids[last]) == Deleted then [] else [ids[last]])
  }

  /** The positions of the calls that did not delete, in increasing order. */
  function FailedPositions(ids: seq<TweetId>, remote: (nat, TweetId) -> CallOutcome): seq<nat>
    decreases |ids|
  {
    if ids == [] then []
    else
      var last := |ids| - 1;
      FailedPositions(ids[..last], remote) + (if remote(last, ids[last]) == Deleted then [] else [last])
  }

  /** The loop of `POST`: one call per id, strictly in input order; a success
      increments `deleted`, a false answer or a thrown error appends the id to
      `errors`, and the loop always goes on to the next id. `calls` records
      the ids sent to the remote, in call order. */
  method DeleteBatch(ids: seq<TweetId>, remote: (nat, TweetId) -> CallOutcome)
    returns (deleted: nat, errors: seq<TweetId>, calls: seq<TweetId>)
    ensures calls == ids
    ensures deleted == SucceededCount(ids, remote)
    ensures errors == Failures(ids, remote)
  {
    deleted, errors, calls := 0, [], [];
    for k := 0 to |ids|
      invariant calls == ids[..k]
      invariant deleted == SucceededCount(ids[..k], remote)
      invariant errors == Failures(ids[..k], remote)
    {
      var id := ids[k];
      var outcome := remote(k, id);
      calls := calls + [id];
      // In the route the 500 ms pause follows the classification inside the
      // `try`, so a call that throws skips it; time is not modelled.
      match outcome
      case Deleted => deleted := deleted + 1;
      case Rejected => errors := errors + [id];
      case Threw => errors := errors + [id];
      assert ids[..k + 1][..k] == ids[..k];
    }
    assert ids[..|ids|] == ids;
  }

  /** Every id is counted exactly once: as deleted or as an error. */
  lemma {:induction false} EveryIdCountedOnce(ids: seq<TweetId>, remote: (nat, TweetId) -> CallOutcome)
    ensures SucceededCount(ids, remote) + |Failures(ids, remote)| == |ids|
    decreases |ids|
  {
    if ids != [] {
      EveryIdCountedOnce(ids[..|ids| - 1], remote);
    }
  }

  /** The failed positions lie inside the batch and increase. */
  lemma {:induction false} FailedPositionsIncrease(ids: seq<TweetId>, remote: (nat, TweetId) -> CallOutcome)
    ensures forall j :: 0 <= j < |FailedPositions(ids, remote)| ==> FailedPositions(ids, remote)[j] < |ids|
    ensures forall i, j :: 0 <= i < j < |FailedPositions(ids, remote)| ==>
              FailedPositions(ids, remote)[i] < FailedPositions(ids, remote)[j]
    decreases |ids|
  {
    if ids != [] {
      FailedPositionsIncrease(ids[..|ids| - 1], remote);
    }
  }

  /** The j-th error is the id at the j-th failed position. */
  lemma {:induction false} FailuresAtFailedPositions(ids: seq<TweetId>, remote: (nat, TweetId) -> CallOutcome)
    ensures |Failures(ids, remote)| == |FailedPositions(ids, remote)|
    ensures forall j :: 0 <= j < |FailedPositions(ids, remote)| ==>
              FailedPositions(ids, remote)[j] < |ids|
              && Failures(ids, remote)[j] == ids[FailedPositions(ids, remote)[j]]
    decreases |ids|
  {
    if ids != [] {
      var last := |ids| - 1;
      var prefix := ids[..last];
      FailuresAtFailedPositions(prefix, remote);
      var fp := FailedPositions(prefix, remote);
      forall j | 0 <= j < |fp|
        ensures ids[fp[j]] == prefix[fp[j]]
      {
      }
    }
  }

  /** A position is a failed position iff its call did not delete. */
  lemma {:induction false} FailedPositionsExact(ids: seq<TweetId>, remote: (nat, TweetId) -> CallOutcome)
    ensures forall k :: 0 <= k < |ids| ==> (remote(k, ids[k]) != Deleted <==> k in FailedPositions(ids, remote))
    decreases |ids|
  {
    if ids != [] {
      var last := |ids| - 1;
      var prefix := ids[..last];
      FailedPositionsExact(prefix, remote);
      FailedPositionsIncrease(prefix, remote);
      assert last !in FailedPositions(prefix, remote);
      forall k | 0 <= k < last
        ensures ids[k] == prefix[k]
      {
      }
    }
  }

  /** `errors` is exactly the subsequence of the input at the failed calls:
      the failed positions increase, each names the id at that position, and
      a position is among them iff its call did not delete. */
  lemma FailuresAreFailedCalls(ids: seq<TweetId>, remote: (nat, TweetId) -> CallOutcome)
    ensures |Failures(ids, remote)| == |FailedPositions(ids, remote)|
    ensures forall j :: 0 <= j < |FailedPositions(ids, remote)| ==>
              FailedPositions(ids, remote)[j] < |ids|
              && Failures(ids, remote)[j] == ids[FailedPositions(ids, remote)[j]]
    ensures forall i, j :: 0 <= i < j < |FailedPositions(ids, remote)| ==>
              FailedPositions(ids, remote)[i] < FailedPositions(ids, remote)[j]
    ensures forall k :: 0 <= k < |ids| ==> (remote(k, ids[k]) != Deleted <==> k in FailedPositions(ids, remote))
  {
    FailedPositionsIncrease(ids, remote);
    FailuresAtFailedPositions(ids, remote);
    FailedPositionsExact(ids, remote);
  }

  /** A batch whose calls all delete reports no error, and one whose calls all
      fail reports every id. */
  lemma {:induction false} UniformBatches(ids: seq<TweetId>, remote: (nat, TweetId) -> CallOutcome)
    ensures (forall k :: 0 <= k < |ids| ==> remote(k, ids[k]) == Deleted)
            ==> Failures(ids, remote) == [] && SucceededCount(ids, remote) == |ids|
    ensures (forall k :: 0 <= k < |ids| ==> remote(k, ids[k]) != Deleted)
            ==> Failures(ids, remote) == ids && SucceededCount(ids, remote) == 0
    decreases |ids|
  {
    if ids != [] {
      var last := |ids| - 1;
      UniformBatches(ids[..last], remote);
      assert ids[..last] + [ids[last]] == ids;
    }
  }

  // ---------------------------------------------------------------------
  // The ledger

  /** The new `tweets_deleted_today`: on a day other than the stored one (or
      with no stored row) it is exactly the batch's count; on the stored day
      it is the stored count, null read as 0, plus the batch's count. */
  function NewDailyCount(stored: Option<LedgerRow>, today: string, deleted: nat): (n: int)
    ensures (stored.None? || stored.value.lastDeletionDate != Some(today)) ==> n == deleted
    ensures stored.Some? && stored.value.lastDeletionDate == Some(today)
            ==> n == stored.value.tweetsDeletedToday.GetOr(0) + deleted
  {
    var isNewDay := !(stored.Some? && stored.value.lastDeletionDate == Some(today));
    if isNewDay then deleted else stored.value.tweetsDeletedToday.GetOr(0) + deleted
  }

  /** Two batches on the same day charge the ledger as one batch of their sum. */
  lemma UsageComposes(stored: Option<LedgerRow>, today: string, a: nat, b: nat)
    ensures NewDailyCount(Some(LedgerRow(Some(NewDailyCount(stored, today, a)), Some(today))), today, b)
            == NewDailyCount(stored, today, a + b)
  {
  }

  /** The ledger row that a profile holds. */
  function LedgerOf(p: AuthContext.Profile): LedgerRow {
    LedgerRow(p.tweetsDeletedToday, p.lastDeletionDate)
  }

  /** The profile after the store applies a write. */
  function AfterWrite(p: AuthContext.Profile, w: LedgerWrite): AuthContext.Profile {
    p.(tweetsDeletedToday := Some(w.tweetsDeletedToday), lastDeletionDate := Some(w.lastDeletionDate))
  }

  /** A write of `deleted` confirmed deletions lowers the quota that
      `canDeleteTweets` reports on the same day by exactly that many, down to 0,
      both across a day boundary and within a day. */
  lemma QuotaConsumedByWrite(p: AuthContext.Profile, today: string, deleted: nat)
    requires !((p.subscriptionTier == AuthContext.PRO || p.subscriptionTier == AuthContext.LIFETIME)
               && p.subscriptionStatus == AuthContext.ACTIVE)
    ensures var before := AuthContext.CanDeleteTweets(Some(p), today).remaining;
            var w := LedgerWrite(NewDailyCount(Some(LedgerOf(p)), today, deleted), today);
            var after := AuthContext.CanDeleteTweets(Some(AfterWrite(p, w)), today).remaining;
            before.Limited? && after == AuthContext.Limited(if before.n - deleted > 0 then before.n - deleted else 0)
  {
  }

  // ---------------------------------------------------------------------
  // The handler

  /** Credentials are present and `tweetIds` is a non-empty array: exactly
      the requests that reach the delete loop, whatever the remote answers;
      every other parsed request gets a 400. */
  function ValidBatch(body: DeleteBody): (b: bool)
    ensures b ==> forall remote :: DeleteResponseFor(Ok(body), remote).DeleteDone?
    ensures !b ==> forall remote :: DeleteResponseFor(Ok(body), remote).DeleteBadRequest?
  {
    Truthy(body.authToken) && Truthy(body.csrfToken)
    && body.tweetIds.IdArray? && |body.tweetIds.ids| > 0
  }

  /** The `errors` field: omitted when no id failed. */
  function ErrorsField(errors: seq<TweetId>): (field: Option<seq<TweetId>>)
    ensures field.None? <==> errors == []
    ensures field.Some? ==> field.value == errors
  {
    if |errors| > 0 then Some(errors) else None
  }

  /** The route's response. It depends on the request and on the remote
      answers only: neither the signed-in user nor the ledger can change it.
      `body` is `Err` when the request body could not be read as JSON. */
  function DeleteResponseFor(body: Result<DeleteBody>, remote: (nat, TweetId) -> CallOutcome): (r: DeleteResponse)
    ensures r.DeleteServerError? <==> body.Err?
    ensures r.DeleteServerError? ==> r.error != ""
    ensures r.DeleteBadRequest? ==> r.error == MISSING_CREDENTIALS || r.error == NO_TWEET_IDS
    ensures r.DeleteDone? ==> body.Ok? && body.value.tweetIds.IdArray? && r.deleted <= |body.value.tweetIds.ids|
  {
    match body
    case Err(m) => DeleteServerError(if m != "" then m else DELETE_FAILED)
    case Ok(b) =>
      if !Truthy(b.authToken) || !Truthy(b.csrfToken) then DeleteBadRequest(MISSING_CREDENTIALS)
      else if !b.tweetIds.IdArray? || |b.tweetIds.ids| == 0 then DeleteBadRequest(NO_TWEET_IDS)
      else
        var ids := b.tweetIds.ids;
        DeleteDone(SucceededCount(ids, remote), ErrorsField(Failures(ids, remote)))
  }

  /** `POST`. Returns the response, the ids sent to the remote in call order,
      and the ledger update sent to the profile store (None when none is
      sent). Whether the store applies the update does not matter: a failure
      there is only logged. */
  method Post(
    body: Result<DeleteBody>,
    remote: (nat, TweetId) -> CallOutcome,
    user: Option<string>,
    stored: Option<LedgerRow>,
    today: string)
    returns (response: DeleteResponse, calls: seq<TweetId>, write: Option<LedgerWrite>)
    ensures response == DeleteResponseFor(body, remote)
    ensures calls == if body.Ok? && ValidBatch(body.value) then body.value.tweetIds.ids else []
    ensures write.Some? <==> body.Ok? && ValidBatch(body.value)
                             && SucceededCount(body.value.tweetIds.ids, remote) > 0 && user.Some?
    ensures write.Some? ==>
              write.value == LedgerWrite(NewDailyCount(stored, today, SucceededCount(body.value.tweetIds.ids, remote)), today)
  {
    calls, write := [], None;
    if body.Err? {
      response := DeleteServerError(if body.message != "" then body.message else DELETE_FAILED);
      return;
    }
    var req := body.value;
    if !Truthy(req.authToken) || !Truthy(req.csrfToken) {
      response := DeleteBadRequest(MISSING_CREDENTIALS);
      return;
    }
    if !req.tweetIds.IdArray? || |req.tweetIds.ids| == 0 {
      response := DeleteBadRequest(NO_TWEET_IDS);
      return;
    }
    var deleted, errors;
    deleted, errors, calls := DeleteBatch(req.tweetIds.ids, remote);
    if deleted > 0 && user.Some? {
      write := Some(LedgerWrite(NewDailyCount(stored, today, deleted), today));
    }
    response := DeleteDone(deleted, ErrorsField(errors));
  }

  /** Missing credentials are reported before the ids are looked at. */
  lemma MissingCredentialsFirst(b: DeleteBody, remote: (nat, TweetId) -> CallOutcome)
    requires !Truthy(b.authToken) || !Truthy(b.csrfToken)
    ensures DeleteResponseFor(Ok(b), remote) == DeleteBadRequest(MISSING_CREDENTIALS)
  {
  }

  /** With credentials, an absent, non-array or empty `tweetIds` is rejected. */
  lemma NoIdsRejected(b: DeleteBody, remote: (nat, TweetId) -> CallOutcome)
    requires Truthy(b.authToken) && Truthy(b.csrfToken)
    requires !b.tweetIds.IdArray? || b.tweetIds.ids == []
    ensures DeleteResponseFor(Ok(b), remote) == DeleteBadRequest(NO_TWEET_IDS)
  {
  }

  /** A completed batch accounts for every id, and omits `errors` exactly when
      every id was deleted. */
  lemma BatchResponseAccounts(b: DeleteBody, remote: (nat, TweetId) -> CallOutcome)
    requires ValidBatch(b)
    ensures var r := DeleteResponseFor(Ok(b), remote);
            r.DeleteDone?
            && r.deleted + (if r.errors.Some? then |r.errors.value| else 0) == |b.tweetIds.ids|
            && (r.errors.None? <==> r.deleted == |b.tweetIds.ids|)
  {
    EveryIdCountedOnce(b.tweetIds.ids, remote);
  }
}
