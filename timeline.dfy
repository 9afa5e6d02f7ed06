/** The timeline route (src/app/api/tweets/route.js): it resolves the viewer,
    fetches one page of the user's timeline from the remote GraphQL API and
    normalises the loosely typed response into posts plus a bottom cursor.
    The two remote calls are parameters; the normaliser `ParseTweets` is the
    route's nested loop, proved against the fold `WalkInstructions`, and that
    fold is in turn characterised by the reference definitions `ItemsOf` and
    `LastBottomCursor`. */
module Timeline {
  import opened Common

  const ADD_ENTRIES := "TimelineAddEntries"
  const ITEM_ENTRY := "TimelineTimelineItem"
  const CURSOR_ENTRY := "TimelineTimelineCursor"
  const BOTTOM := "Bottom"
  const RT_PREFIX := "RT @"
  /** Message of the route's own 500 response when the exception has none. */
  const FETCH_FAILED := "Failed to fetch tweets"
  const MISSING_CREDENTIALS := "Missing credentials"

  /** The `legacy` payload of a post record. Object-valued markers
      (`retweeted_status_result`) are reduced to whether they are present;
      id strings stay optional strings because the code tests their truthiness. */
  datatype Legacy = Legacy(
    idStr: TweetId,
    fullText: Option<string>,
    text: Option<string>,
    createdAt: string,
    hasRetweetedStatus: bool,
    inReplyToStatusIdStr: Option<string>,
    inReplyToUserIdStr: Option<string>,
    quotedStatusIdStr: Option<string>,
    isQuoteStatus: bool)

  /** A post record: its legacy payload (absent for tombstones) and whether it
      carries a `quoted_status_result`. */
  datatype PostRecord = PostRecord(legacy: Option<Legacy>, hasQuotedStatus: bool)

  /** `tweet_results.result`: a record which, for limited-visibility posts,
      wraps the real record in a `tweet` field. */
  datatype TweetResult = TweetResult(tweet: Option<PostRecord>, record: PostRecord)

  /** `entry.content`, with `itemContent.tweet_results.result` collapsed to
      `tweetResult` (None when any link of that chain is missing). */
  datatype Content = Content(
    entryType: Option<string>,
    tweetResult: Option<TweetResult>,
    cursorType: Option<string>,
    value: Option<string>)

  /** A timeline entry. `NullEntry` is a null element of the entries array:
      reading `entry.content` from it throws. */
  datatype Entry = NullEntry | Entry(content: Option<Content>, sortIndex: string)

  /** A timeline instruction. `NullInstruction` is a null element of the
      instructions array: reading `instruction.type` from it throws. */
  datatype Instruction = NullInstruction | Instruction(kind: string, entries: Option<seq<Entry>>)

  datatype TweetType = Original | Retweet | Reply

  /** A normalised post as the route returns it. `date` is the raw
      `created_at`; the locale formatting is not part of this model. */
  datatype Tweet = Tweet(id: TweetId, text: string, date: string, cursor: string, tweetType: TweetType)

  /** The route's `{ tweets, nextCursor }`. */
  datatype Page = Page(tweets: seq<Tweet>, nextCursor: Option<string>)

  /** The state of the walk, and whether it stopped at an exception. */
  datatype Walk = Walk(page: Page, crashed: bool)

  // ---------------------------------------------------------------------
  // Classification of one record

  /** `tweetResult.tweet || tweetResult`: unwrap one level of wrapper. */
  function Unwrap(r: TweetResult): (post: PostRecord)
    ensures r.tweet.Some? ==> post == r.tweet.value
    ensures r.tweet.None? ==> post == r.record
  {
    if r.tweet.Some? then r.tweet.value else r.record
  }

  /** A repost reference, or a `full_text` starting with "RT @"; either one
      suffices. */
  function IsRetweet(l: Legacy): (b: bool)
    ensures l.hasRetweetedStatus ==> b
    ensures l.fullText.Some? && RT_PREFIX <= l.fullText.value ==> b
    ensures b && !l.hasRetweetedStatus ==> l.fullText.Some? && RT_PREFIX <= l.fullText.value
  {
    l.hasRetweetedStatus || (l.fullText.Some? && RT_PREFIX <= l.fullText.value)
  }

  /** A non-empty in-reply-to status id or user id, either one alone; an
      empty id string does not count. */
  function IsReply(l: Legacy): (b: bool)
    ensures b ==> l.inReplyToStatusIdStr.Some? || l.inReplyToUserIdStr.Some?
    ensures !Truthy(l.inReplyToStatusIdStr) && !Truthy(l.inReplyToUserIdStr) ==> !b
    ensures Truthy(l.inReplyToStatusIdStr) ==> b
    ensures Truthy(l.inReplyToUserIdStr) ==> b
  {
    Truthy(l.inReplyToStatusIdStr) || Truthy(l.inReplyToUserIdStr)
  }

  /** Any one of the three quote markers alone: a quoted record, a non-empty
      quoted id, or the quote flag; with none of them, not a quote. */
  function IsQuote(post: PostRecord, l: Legacy): (b: bool)
    ensures post.hasQuotedStatus || l.isQuoteStatus ==> b
    ensures Truthy(l.quotedStatusIdStr) ==> b
    ensures !post.hasQuotedStatus && !Truthy(l.quotedStatusIdStr) && !l.isQuoteStatus ==> !b
  {
    post.hasQuotedStatus || Truthy(l.quotedStatusIdStr) || l.isQuoteStatus
  }

  /** The post's type: repost and quote markers win over reply markers. */
  function Classify(post: PostRecord, l: Legacy): (t: TweetType)
    ensures t == Retweet <==> IsRetweet(l) || IsQuote(post, l)
    ensures t == Reply <==> !IsRetweet(l) && !IsQuote(post, l) && IsReply(l)
    ensures t == Original <==> !IsRetweet(l) && !IsQuote(post, l) && !IsReply(l)
  {
    if IsRetweet(l) || IsQuote(post, l) then Retweet
    else if IsReply(l) then Reply
    else Original
  }

  /** A text starting with "RT @" is a repost even without a repost reference,
      whatever reply markers it has. */
  lemma RtPrefixIsRetweet(post: PostRecord, l: Legacy)
    requires l.fullText.Some? && RT_PREFIX <= l.fullText.value
    ensures Classify(post, l) == Retweet
  {
  }

  /** `full_text || text || ''`. */
  function ItemText(l: Legacy): (s: string)
    ensures Truthy(l.fullText) ==> s == l.fullText.value
    ensures !Truthy(l.fullText) && Truthy(l.text) ==> s == l.text.value
    ensures s == "" <==> !Truthy(l.fullText) && !Truthy(l.text)
  {
    if Truthy(l.fullText) then l.fullText.value
    else if Truthy(l.text) then l.text.value
    else ""
  }

  // ---------------------------------------------------------------------
  // One entry

  predicate IsItemEntry(e: Entry) {
    e.Entry? && e.content.Some? && e.content.value.entryType == Some(ITEM_ENTRY)
  }

  predicate IsBottomCursorEntry(e: Entry) {
    e.Entry? && e.content.Some? && e.content.value.entryType == Some(CURSOR_ENTRY)
    && e.content.value.cursorType == Some(BOTTOM)
  }

  /** The post an entry contributes: only item entries whose unwrapped
      record has a legacy payload contribute one. */
  function EntryItem(e: Entry): (r: Option<Tweet>)
    ensures r.Some? ==> IsItemEntry(e)
    ensures IsItemEntry(e) && e.content.value.tweetResult.None? ==> r.None?
    ensures IsItemEntry(e) && e.content.value.tweetResult.Some?
            ==> (r.Some? <==> Unwrap(e.content.value.tweetResult.value).legacy.Some?)
  {
    if !IsItemEntry(e) || e.content.value.tweetResult.None? then None
    else
      var post := Unwrap(e.content.value.tweetResult.value);
      match post.legacy
      case None => None
      case Some(l) => Some(Tweet(l.idStr, ItemText(l), l.createdAt, e.sortIndex, Classify(post, l)))
  }

  /** One step of the walk over a non-null entry: it keeps what was
      collected, adds at most one post, and moves the cursor only at a
      bottom-cursor entry. */
  function Step(p: Page, e: Entry): (q: Page)
    requires e.Entry?
    ensures p.tweets <= q.tweets && |q.tweets| <= |p.tweets| + 1
    ensures |q.tweets| == |p.tweets| + 1 <==> EntryItem(e).Some?
    ensures q.nextCursor != p.nextCursor ==> IsBottomCursorEntry(e)
  {
    if IsItemEntry(e) then
      match EntryItem(e)
      case Some(t) => Page(p.tweets + [t], p.nextCursor)
      case None => p
    else if IsBottomCursorEntry(e) then Page(p.tweets, e.content.value.value)
    else p
  }

  // ---------------------------------------------------------------------
  // The walk, as a fold (specification of ParseTweets)

  /** The walk over one entry list: it never drops what was collected, adds
      at most one post per entry, and stops early only at a null entry. */
  function WalkEntries(p: Page, es: seq<Entry>): (w: Walk)
    ensures p.tweets <= w.page.tweets
    ensures w.crashed ==> NullEntry in es
    decreases es
  {
    if es == [] then Walk(p, false)
    else if es[0].NullEntry? then Walk(p, true)
    else WalkEntries(Step(p, es[0]), es[1..])
  }

  function EntriesOf(ins: Instruction): seq<Entry>
    requires ins.Instruction?
  {
    ins.entries.GetOr([])
  }

  /** The walk over the instruction list: it never drops what was collected,
      and stops early only at a null instruction or a null entry. */
  function WalkInstructions(p: Page, ins: seq<Instruction>): (w: Walk)
    ensures p.tweets <= w.page.tweets
    ensures w.crashed ==> exists i :: 0 <= i < |ins| && (ins[i].NullInstruction? || NullEntry in EntriesOf(ins[i]))
    decreases ins
  {
    if ins == [] then Walk(p, false)
    else if ins[0].NullInstruction? then Walk(p, true)
    else if ins[0].kind != ADD_ENTRIES then WalkInstructions(p, ins[1..])
    else
      var w := WalkEntries(p, EntriesOf(ins[0]));
      if w.crashed then w else WalkInstructions(w.page, ins[1..])
  }

  /** What `parseTweets` returns for the (possibly absent) instruction list. */
  function ParseTimeline(instructions: Option<seq<Instruction>>): (page: Page)
    ensures instructions.None? || instructions == Some([]) ==> page == Page([], None)
    ensures instructions.Some? && |instructions.value| > 0 && instructions.value[0].NullInstruction?
            ==> page == Page([], None)
  {
    WalkInstructions(Page([], None), instructions.GetOr([])).page
  }

  /** `parseTweets`: the nested loops of the route. An exception thrown while
      reading a null instruction or entry is caught outside both loops, so it
      ends the walk with whatever has been collected. */
  method ParseTweets(instructionsField: Option<seq<Instruction>>) returns (page: Page)
    ensures page == ParseTimeline(instructionsField)
  {
    var tweets: seq<Tweet> := [];
    var nextCursor: Option<string> := None;
    var instructions := instructionsField.GetOr([]);
    ghost var goal := WalkInstructions(Page([], None), instructions);
    var i := 0;
    label walk: while i < |instructions|
      invariant 0 <= i <= |instructions|
      invariant WalkInstructions(Page(tweets, nextCursor), instructions[i..]) == goal
    {
      var instruction := instructions[i];
      if instruction.NullInstruction? {
        break;
      }
      if instruction.kind == ADD_ENTRIES {
        var entries := instruction.entries.GetOr([]);
        ghost var before := Page(tweets, nextCursor);
        var j := 0;
        while j < |entries|
          invariant 0 <= j <= |entries|
          invariant WalkEntries(Page(tweets, nextCursor), entries[j..]) == WalkEntries(before, entries)
        {
          var entry := entries[j];
          if entry.NullEntry? {
            break walk;
          }
          if IsItemEntry(entry) {
            var item := EntryItem(entry);
            if item.Some? {
              tweets := tweets + [item.value];
            }
          } else if IsBottomCursorEntry(entry) {
            nextCursor := entry.content.value.value;
          }
          assert entries[j..][1..] == entries[j + 1..];
          j := j + 1;
        }
      }
      assert instructions[i..][1..] == instructions[i + 1..];
      i := i + 1;
    }
    page := Page(tweets, nextCursor);
  }

  // ---------------------------------------------------------------------
  // Reference definitions: which entries the walk reaches, and what it keeps

  /** The entries before the first null one. */
  function UntilNull(es: seq<Entry>): (r: seq<Entry>)
    ensures r <= es
    ensures NullEntry !in r
    ensures NullEntry !in es ==> r == es
  {
    if es == [] || es[0].NullEntry? then [] else [es[0]] + UntilNull(es[1..])
  }

  /** The entries the walk reaches, in order: those of every `TimelineAddEntries`
      instruction up to the first null instruction or null entry. */
  function ReachedEntries(ins: seq<Instruction>): seq<Entry>
  {
    if ins == [] || ins[0].NullInstruction? then []
    else if ins[0].kind != ADD_ENTRIES then ReachedEntries(ins[1..])
    else if NullEntry in EntriesOf(ins[0]) then UntilNull(EntriesOf(ins[0]))
    else EntriesOf(ins[0]) + ReachedEntries(ins[1..])
  }

  /** The posts that a sequence of entries contributes, in entry order. */
  function ItemsOf(es: seq<Entry>): seq<Tweet>
  {
    if es == [] then []
    else (if EntryItem(es[0]).Some? then [EntryItem(es[0]).value] else []) + ItemsOf(es[1..])
  }

  /** The values of the bottom-cursor entries, in entry order. */
  function BottomCursors(es: seq<Entry>): seq<Option<string>>
  {
    if es == [] then []
    else (if IsBottomCursorEntry(es[0]) then [es[0].content.value.value] else []) + BottomCursors(es[1..])
  }

  /** The value of the last bottom-cursor entry, or `c` when there is none. */
  function LastBottomCursor(c: Option<string>, es: seq<Entry>): Option<string>
  {
    var cs := BottomCursors(es);
    if cs == [] then c else cs[|cs| - 1]
  }

  lemma {:induction false} ItemsOfAppend(a: seq<Entry>, b: seq<Entry>)
    ensures ItemsOf(a + b) == ItemsOf(a) + ItemsOf(b)
  {
    if a != [] {
      assert (a + b)[1..] == a[1..] + b;
      ItemsOfAppend(a[1..], b);
    } else {
      assert a + b == b;
    }
  }

  lemma {:induction false} BottomCursorsAppend(a: seq<Entry>, b: seq<Entry>)
    ensures BottomCursors(a + b) == BottomCursors(a) + BottomCursors(b)
  {
    if a != [] {
      assert (a + b)[1..] == a[1..] + b;
      BottomCursorsAppend(a[1..], b);
    } else {
      assert a + b == b;
    }
  }

  lemma LastBottomCursorAppend(c: Option<string>, a: seq<Entry>, b: seq<Entry>)
    ensures LastBottomCursor(c, a + b) == LastBottomCursor(LastBottomCursor(c, a), b)
  {
    BottomCursorsAppend(a, b);
  }

  /** One step keeps the entry's post and bottom cursor, if any. */
  lemma StepMeaning(p: Page, e: Entry)
    requires e.Entry?
    ensures Step(p, e) == Page(p.tweets + ItemsOf([e]), LastBottomCursor(p.nextCursor, [e]))
  {
    assert [e][1..] == [];
    assert ItemsOf([e]) == (if EntryItem(e).Some? then [EntryItem(e).value] else []);
    assert BottomCursors([e]) == (if IsBottomCursorEntry(e) then [e.content.value.value] else []);
  }

  /** The walk over one entry list keeps the posts and the last bottom cursor
      of the entries before the first null one, and stops iff there is one. */
  lemma {:induction false} WalkEntriesMeaning(p: Page, es: seq<Entry>)
    ensures WalkEntries(p, es).crashed <==> NullEntry in es
    ensures WalkEntries(p, es).page
            == Page(p.tweets + ItemsOf(UntilNull(es)), LastBottomCursor(p.nextCursor, UntilNull(es)))
    decreases es
  {
    if es != [] && !es[0].NullEntry? {
      var e, rest := es[0], es[1..];
      var q := Step(p, e);
      WalkEntriesMeaning(q, rest);
      StepMeaning(p, e);
      assert es == [e] + rest;
      assert NullEntry in es <==> NullEntry in rest;
      assert UntilNull(es) == [e] + UntilNull(rest);
      ItemsOfAppend([e], UntilNull(rest));
      LastBottomCursorAppend(p.nextCursor, [e], UntilNull(rest));
    }
  }

  /** The walk over the instructions keeps exactly the posts of the reached
      entries, in order, and the value of the last bottom cursor among them. */
  lemma {:induction false} WalkInstructionsMeaning(p: Page, ins: seq<Instruction>)
    ensures WalkInstructions(p, ins).page
            == Page(p.tweets + ItemsOf(ReachedEntries(ins)), LastBottomCursor(p.nextCursor, ReachedEntries(ins)))
    decreases ins
  {
    if ins == [] || ins[0].NullInstruction? {
    } else if ins[0].kind != ADD_ENTRIES {
      WalkInstructionsMeaning(p, ins[1..]);
    } else {
      var es := EntriesOf(ins[0]);
      WalkEntriesMeaning(p, es);
      if NullEntry !in es {
        var q := WalkEntries(p, es).page;
        assert WalkInstructions(p, ins) == WalkInstructions(q, ins[1..]);
        assert ReachedEntries(ins) == es + ReachedEntries(ins[1..]);
        WalkInstructionsMeaning(q, ins[1..]);
        ItemsOfAppend(es, ReachedEntries(ins[1..]));
        LastBottomCursorAppend(p.nextCursor, es, ReachedEntries(ins[1..]));
      } else {
        assert WalkInstructions(p, ins) == WalkEntries(p, es);
        assert ReachedEntries(ins) == UntilNull(es);
      }
    }
  }

  /** The route's normaliser, characterised: the posts of every reached entry
      that has a legacy payload, in entry order, and the last bottom cursor
      reached (null if none). */
  lemma ParseTimelineMeaning(instructions: Option<seq<Instruction>>)
    ensures ParseTimeline(instructions).tweets == ItemsOf(ReachedEntries(instructions.GetOr([])))
    ensures ParseTimeline(instructions).nextCursor == LastBottomCursor(None, ReachedEntries(instructions.GetOr([])))
  {
    WalkInstructionsMeaning(Page([], None), instructions.GetOr([]));
  }

  /** Walking a concatenation: the second part is walked from where the first
      stopped, unless the first ended in an exception. */
  lemma {:induction false} WalkInstructionsAppend(p: Page, a: seq<Instruction>, b: seq<Instruction>)
    ensures WalkInstructions(p, a + b)
            == (var w := WalkInstructions(p, a); if w.crashed then w else WalkInstructions(w.page, b))
    decreases a
  {
    if a == [] {
      assert a + b == b;
    } else {
      assert (a + b)[0] == a[0];
      assert (a + b)[1..] == a[1..] + b;
      if a[0].NullInstruction? {
      } else if a[0].kind != ADD_ENTRIES {
        WalkInstructionsAppend(p, a[1..], b);
      } else {
        var w := WalkEntries(p, EntriesOf(a[0]));
        if !w.crashed {
          WalkInstructionsAppend(w.page, a[1..], b);
        }
      }
    }
  }

  /** An exception part-way keeps what was collected before it: whatever
      follows a null instruction is never read. */
  lemma CrashKeepsCollected(a: seq<Instruction>, b: seq<Instruction>)
    ensures ParseTimeline(Some(a + [NullInstruction] + b)) == ParseTimeline(Some(a))
  {
    WalkInstructionsAppend(Page([], None), a, [NullInstruction] + b);
    assert a + [NullInstruction] + b == a + ([NullInstruction] + b);
  }

  /** Only `TimelineAddEntries` instructions contribute: removing any other
      instruction leaves the result unchanged. */
  lemma OtherInstructionIgnored(a: seq<Instruction>, kind: string, es: Option<seq<Entry>>, b: seq<Instruction>)
    requires kind != ADD_ENTRIES
    ensures ParseTimeline(Some(a + [Instruction(kind, es)] + b)) == ParseTimeline(Some(a + b))
  {
    var p0 := Page([], None);
    WalkInstructionsAppend(p0, a, [Instruction(kind, es)] + b);
    WalkInstructionsAppend(p0, a, b);
    assert a + [Instruction(kind, es)] + b == a + ([Instruction(kind, es)] + b);
    assert ([Instruction(kind, es)] + b)[1..] == b;
  }

  /** An item entry whose record is a tombstone (no legacy payload, or no
      result at all) is skipped without affecting the entries around it. */
  lemma {:induction false} TombstoneSkipped(p: Page, a: seq<Entry>, e: Entry, b: seq<Entry>)
    requires IsItemEntry(e) && EntryItem(e).None?
    ensures WalkEntries(p, a + [e] + b) == WalkEntries(p, a + b)
    decreases a
  {
    if a == [] {
      assert a + [e] + b == [e] + b;
      assert ([e] + b)[1..] == b;
      assert a + b == b;
    } else {
      assert (a + [e] + b)[0] == a[0] && (a + b)[0] == a[0];
      assert (a + [e] + b)[1..] == a[1..] + [e] + b;
      assert (a + b)[1..] == a[1..] + b;
      if !a[0].NullEntry? {
        TombstoneSkipped(Step(p, a[0]), a[1..], e, b);
      }
    }
  }

  // ---------------------------------------------------------------------
  // The route handler

  /** The JSON body of a POST to the route. */
  datatype TweetsRequest = TweetsRequest(authToken: Option<string>, csrfToken: Option<string>, cursor: Option<string>)

  /** What `getViewer` returns. */
  datatype Viewer = Viewer(userId: string, screenName: string, tweetsCount: int)

  /** The route's answers: 400, 500, or the page. */
  datatype TweetsResponse =
    | TweetsBadRequest(error: string)
    | TweetsServerError(error: string)
    | TweetsPage(tweets: seq<Tweet>, total: int, nextCursor: Option<string>, screenName: string)

  /** `fetchTweets` puts the cursor in the query only when it is truthy. */
  function SentCursor(cursor: Option<string>): (c: Option<string>)
    ensures c.Some? <==> Truthy(cursor)
    ensures c.Some? ==> c == cursor
  {
    if Truthy(cursor) then cursor else None
  }

  function ServerErrorFor(message: string): TweetsResponse {
    TweetsServerError(if message != "" then message else FETCH_FAILED)
  }

  /** The response the route gives. `body` is `Err` when the request body
      could not be read as JSON; `getViewer` and `fetchTweets` stand for the remote
      calls, which answer with a value or throw with a message. */
  function TweetsResponseFor(
    body: Result<TweetsRequest>,
    getViewer: Credentials -> Result<Viewer>,
    fetchTweets: (Credentials, string, Option<string>) -> Result<Option<seq<Instruction>>>): (r: TweetsResponse)
    ensures r.TweetsBadRequest? <==> body.Ok? && (!Truthy(body.value.authToken) || !Truthy(body.value.csrfToken))
    ensures r.TweetsBadRequest? ==> r.error == MISSING_CREDENTIALS
    ensures r.TweetsServerError? ==> r.error != ""
    ensures body.Err? ==> r.TweetsServerError?
  {
    if body.Err? then ServerErrorFor(body.message)
    else if !Truthy(body.value.authToken) || !Truthy(body.value.csrfToken) then TweetsBadRequest(MISSING_CREDENTIALS)
    else
      var creds := Credentials(body.value.authToken.value, body.value.csrfToken.value);
      match getViewer(creds)
      case Err(m) => ServerErrorFor(m)
      case Ok(v) =>
        match fetchTweets(creds, v.userId, SentCursor(body.value.cursor))
        case Err(m) => ServerErrorFor(m)
        case Ok(data) =>
          var page := ParseTimeline(data);
          TweetsPage(page.tweets, v.tweetsCount, page.nextCursor, v.screenName)
  }

  /** The POST handler. */
  method HandleTweetsRequest(
    body: Result<TweetsRequest>,
    getViewer: Credentials -> Result<Viewer>,
    fetchTweets: (Credentials, string, Option<string>) -> Result<Option<seq<Instruction>>>)
    returns (response: TweetsResponse)
    ensures response == TweetsResponseFor(body, getViewer, fetchTweets)
  {
    if body.Err? {
      return ServerErrorFor(body.message);
    }
    var req := body.value;
    if !Truthy(req.authToken) || !Truthy(req.csrfToken) {
      return TweetsBadRequest(MISSING_CREDENTIALS);
    }
    var creds := Credentials(req.authToken.value, req.csrfToken.value);
    var viewer := getViewer(creds);
    if viewer.Err? {
      return ServerErrorFor(viewer.message);
    }
    var data := fetchTweets(creds, viewer.value.userId, SentCursor(req.cursor));
    if data.Err? {
      return ServerErrorFor(data.message);
    }
    var page := ParseTweets(data.value);
    response := TweetsPage(page.tweets, viewer.value.tweetsCount, page.nextCursor, viewer.value.screenName);
  }

  /** Missing credentials are rejected with 400 before any remote call: the
      answer does not depend on the remote at all. */
  lemma MissingCredentialsRejected(
    body: TweetsRequest,
    getViewer: Credentials -> Result<Viewer>,
    fetchTweets: (Credentials, string, Option<string>) -> Result<Option<seq<Instruction>>>)
    requires !Truthy(body.authToken) || !Truthy(body.csrfToken)
    ensures TweetsResponseFor(Ok(body), getViewer, fetchTweets) == TweetsBadRequest(MISSING_CREDENTIALS)
  {
  }

  /** A null or empty cursor is left out of the remote query, so the route
      answers with the first page again. */
  lemma FalsyCursorFetchesFirstPage(
    authToken: Option<string>, csrfToken: Option<string>, cursor: Option<string>,
    getViewer: Credentials -> Result<Viewer>,
    fetchTweets: (Credentials, string, Option<string>) -> Result<Option<seq<Instruction>>>)
    requires !Truthy(cursor)
    ensures TweetsResponseFor(Ok(TweetsRequest(authToken, csrfToken, cursor)), getViewer, fetchTweets)
         == TweetsResponseFor(Ok(TweetsRequest(authToken, csrfToken, None)), getViewer, fetchTweets)
  {
  }
}
