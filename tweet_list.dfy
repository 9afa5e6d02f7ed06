/** The selection component (src/components/TweetList.jsx): three type
    filters that can never all be off, a selection of post ids capped at
    `maxSelection`, select-all over the first `maxSelection` filtered posts,
    the hand-off of the selected posts to the page, and the choice of view.
    The props (`tweets`, `totalTweets`, `maxSelection`) are parameters; the
    two state hooks (`selected`, `filters`) are the fields of
    `TweetListState`. */
module TweetList {
  import opened Common
  import opened Timeline

  /** The three type filters. */
  datatype TypeFilters = TypeFilters(original: bool, retweet: bool, reply: bool)

  const ALL_ON := TypeFilters(true, true, true)

  /** `maxSelection` when the parent passes none. */
  const DEFAULT_MAX_SELECTION: nat := 25

  /** Whether the filters let a post of type `t` through. */
  predicate Shows(f: TypeFilters, t: TweetType) {
    match t
    case Original => f.original
    case Retweet => f.retweet
    case Reply => f.reply
  }

  predicate AnyOn(f: TypeFilters) {
    f.original || f.retweet || f.reply
  }

  /** `{ ...filters, [kind]: !filters[kind] }`. */
  function Flip(f: TypeFilters, kind: TweetType): (g: TypeFilters)
    ensures Shows(g, kind) == !Shows(f, kind)
    ensures forall k :: k != kind ==> Shows(g, k) == Shows(f, k)
  {
    match kind
    case Original => f.(original := !f.original)
    case Retweet => f.(retweet := !f.retweet)
    case Reply => f.(reply := !f.reply)
  }

  /** `filteredTweets`: the posts whose type is shown, in list order. */
  function FilteredTweets(tweets: seq<Tweet>, f: TypeFilters): (r: seq<Tweet>)
    ensures forall t :: t in r <==> t in tweets && Shows(f, t.tweetType)
    ensures IsSubsequence(r, tweets)
  {
    FilterIsSubsequence(tweets, (t: Tweet) => Shows(f, t.tweetType));
    Filter(tweets, (t: Tweet) => Shows(f, t.tweetType))
  }

  /** Filtering keeps the relative order of the posts it keeps. */
  lemma FilteredTweetsAppend(a: seq<Tweet>, b: seq<Tweet>, f: TypeFilters)
    ensures FilteredTweets(a + b, f) == FilteredTweets(a, f) + FilteredTweets(b, f)
  {
    FilterAppend(a, b, (t: Tweet) => Shows(f, t.tweetType));
  }

  /** With every filter on (the initial state) the list is shown whole. */
  lemma AllOnShowsEverything(tweets: seq<Tweet>)
    ensures FilteredTweets(tweets, ALL_ON) == tweets
  {
    FilterExtremes(tweets, (t: Tweet) => Shows(ALL_ON, t.tweetType));
  }

  /** From a state with a filter on, the only toggle that would leave all
      three off (and is therefore refused) is turning off the one filter that
      is on; a toggle flips exactly the named filter. */
  lemma FlipKeepsOneOn(f: TypeFilters, kind: TweetType)
    requires AnyOn(f)
    ensures !AnyOn(Flip(f, kind)) ==> forall t :: Shows(f, t) <==> t == kind
    ensures forall t :: Shows(Flip(f, kind), t) <==> (if t == kind then !Shows(f, t) else Shows(f, t))
  {
  }

  // ---------------------------------------------------------------------
  // Selection

  /** `toggleSelect` on the selection: a present id leaves; an absent one
      joins only while there is room. */
  function ToggledSelection(selected: set<TweetId>, id: TweetId, maxSelection: nat): (r: set<TweetId>)
    ensures id in selected ==> r == selected - {id}
    ensures id !in selected ==> r == if |selected| < maxSelection then selected + {id} else selected
  {
    if id in selected then selected - {id}
    else if |selected| < maxSelection then selected + {id}
    else selected
  }

  /** Toggling never takes the selection above the cap. */
  lemma ToggleRespectsCap(selected: set<TweetId>, id: TweetId, maxSelection: nat)
    requires |selected| <= maxSelection
    ensures |ToggledSelection(selected, id, maxSelection)| <= maxSelection
  {
    if id in selected {
      assert |selected - {id}| == |selected| - 1;
    }
  }

  /** Selecting an unselected id while there is room and toggling it again
      restores the selection. */
  lemma ToggleTwiceRestores(selected: set<TweetId>, id: TweetId, maxSelection: nat)
    requires id !in selected && |selected| < maxSelection
    ensures ToggledSelection(ToggledSelection(selected, id, maxSelection), id, maxSelection) == selected
  {
  }

  function Min(a: int, b: int): int {
    if a < b then a else b
  }

  /** The ids of the first `n` posts of `s`. */
  function FirstIds(s: seq<Tweet>, n: nat): (r: set<TweetId>)
    ensures forall i :: 0 <= i < Min(n, |s|) ==> s[i].id in r
    ensures forall id :: id in r ==> exists i :: 0 <= i < Min(n, |s|) && s[i].id == id
  {
    set i | 0 <= i < Min(n, |s|) :: s[i].id
  }

  /** No two posts share an id. */
  predicate UniqueIds(s: seq<Tweet>) {
    forall i, j :: 0 <= i < j < |s| ==> s[i].id != s[j].id
  }

  /** Helper: any filter keeps the ids unique. */
  lemma {:induction false} KeptUnique(tweets: seq<Tweet>, keep: Tweet -> bool)
    requires UniqueIds(tweets)
    ensures UniqueIds(Filter(tweets, keep))
  {
    if tweets != [] {
      var t0, rest := tweets[0], tweets[1..];
      assert UniqueIds(rest) by {
        forall i, j | 0 <= i < j < |rest| ensures rest[i].id != rest[j].id {
          assert rest[i] == tweets[i + 1] && rest[j] == tweets[j + 1];
        }
      }
      KeptUnique(rest, keep);
      var fr := Filter(rest, keep);
      if keep(t0) {
        var r := [t0] + fr;
        assert Filter(tweets, keep) == r;
        forall t | t in fr ensures t.id != t0.id {
          var k :| 0 <= k < |rest| && rest[k] == t;
          assert t == tweets[k + 1];
        }
        forall i, j | 0 <= i < j < |r| ensures r[i].id != r[j].id {
          assert r[j] == fr[j - 1];
          if i > 0 {
            assert r[i] == fr[i - 1];
          }
        }
      } else {
        assert Filter(tweets, keep) == fr;
      }
    }
  }

  /** Filtering keeps the ids unique. */
  lemma FilteredUnique(tweets: seq<Tweet>, f: TypeFilters)
    requires UniqueIds(tweets)
    ensures UniqueIds(FilteredTweets(tweets, f))
  {
    KeptUnique(tweets, (t: Tweet) => Shows(f, t.tweetType));
  }

  /** Whatever the ids, the first `n` posts have at most `min(n, |s|)`
      distinct ids: a list holding a page twice still selects within the cap. */
  lemma {:induction false} FirstIdsAtMost(s: seq<Tweet>, n: nat)
    ensures |FirstIds(s, n)| <= Min(n, |s|)
    decreases n
  {
    if Min(n, |s|) > 0 {
      var m := Min(n, |s|) - 1;
      FirstIdsAtMost(s, m);
      var before, after := FirstIds(s, m), FirstIds(s, n);
      assert Min(m, |s|) == m;
      forall id | id in after ensures id in before + {s[m].id} {
        var i :| 0 <= i < m + 1 && s[i].id == id;
        if i < m {
          assert id in before;
        }
      }
      assert after <= before + {s[m].id};
      SubsetSize(after, before + {s[m].id});
    } else {
      assert FirstIds(s, n) == {};
    }
  }

  /** With unique ids, the first `n` posts have `min(n, |s|)` distinct ids. */
  lemma {:induction false} FirstIdsCount(s: seq<Tweet>, n: nat)
    requires UniqueIds(s)
    ensures |FirstIds(s, n)| == Min(n, |s|)
    decreases n
  {
    if Min(n, |s|) > 0 {
      var m := Min(n, |s|) - 1;
      FirstIdsCount(s, m);
      var before, after := FirstIds(s, m), FirstIds(s, n);
      assert Min(m, |s|) == m;
      forall id | id in after ensures id in before + {s[m].id} {
        var i :| 0 <= i < m + 1 && s[i].id == id;
        if i < m {
          assert id in before;
        }
      }
      assert after == before + {s[m].id};
      forall id | id in before ensures id != s[m].id {
        var i :| 0 <= i < m && s[i].id == id;
      }
    } else {
      assert FirstIds(s, n) == {};
    }
  }

  /** `allSelected`: something is shown, and the selection is as large as
      the cap and the shown list allow. */
  function AllSelected(filtered: seq<Tweet>, selected: set<TweetId>, maxSelection: nat): (b: bool)
    ensures b ==> filtered != [] && |selected| <= maxSelection && |selected| <= |filtered|
    ensures b && maxSelection > 0 ==> selected != {}
  {
    |filtered| > 0 && |selected| == Min(maxSelection, |filtered|)
  }

  /** With unique ids, `selectAll` selects exactly `min(maxSelection, |filtered|)`
      ids, so the "all selected" check holds afterwards whenever something is
      shown. */
  lemma SelectAllSelectsAll(tweets: seq<Tweet>, f: TypeFilters, maxSelection: nat)
    requires UniqueIds(tweets)
    ensures var filtered := FilteredTweets(tweets, f);
            |FirstIds(filtered, maxSelection)| == Min(maxSelection, |filtered|)
            && (|filtered| > 0 ==> AllSelected(filtered, FirstIds(filtered, maxSelection), maxSelection))
  {
    FilteredUnique(tweets, f);
    FirstIdsCount(FilteredTweets(tweets, f), maxSelection);
  }

  /** `handleDelete`'s argument: the posts of the list whose id is selected,
      in list order. */
  function SelectedTweets(tweets: seq<Tweet>, selected: set<TweetId>): (r: seq<Tweet>)
    ensures forall t :: t in r <==> t in tweets && t.id in selected
    ensures IsSubsequence(r, tweets)
  {
    FilterIsSubsequence(tweets, (t: Tweet) => t.id in selected);
    Filter(tweets, (t: Tweet) => t.id in selected)
  }

  /** With unique ids, the hand-off holds no more posts than there are
      selected ids. */
  lemma SelectedTweetsBounded(tweets: seq<Tweet>, selected: set<TweetId>)
    requires UniqueIds(tweets)
    ensures |SelectedTweets(tweets, selected)| <= |selected|
  {
    var r := SelectedTweets(tweets, selected);
    KeptUnique(tweets, (t: Tweet) => t.id in selected);
    FirstIdsCount(r, |r|);
    assert FirstIds(r, |r|) <= selected;
    SubsetSize(FirstIds(r, |r|), selected);
  }

  /** Helper: a subset is no larger than its superset. */
  lemma {:induction false} SubsetSize(a: set<TweetId>, b: set<TweetId>)
    requires a <= b
    ensures |a| <= |b|
    decreases |a|
  {
    if a != {} {
      var x :| x in a;
      SubsetSize(a - {x}, b - {x});
    }
  }

  // ---------------------------------------------------------------------
  // Views

  /** Which view the component renders. */
  datatype View = AllDoneView | LoadMorePromptView | ListView(offersLoadMore: bool)

  function ViewFor(tweets: seq<Tweet>, totalTweets: int): (v: View)
    ensures |tweets| > 0 ==> v.ListView?
    ensures tweets == [] && totalTweets >= 0 ==> !v.ListView?
    ensures v == LoadMorePromptView ==> tweets == [] && totalTweets > 0
  {
    if |tweets| == 0 && totalTweets == 0 then AllDoneView
    else if |tweets| == 0 && totalTweets > 0 then LoadMorePromptView
    else ListView(|tweets| < totalTweets)
  }

  /** Loading more is offered, by the prompt or by the list's button, exactly
      when the list holds fewer posts than the account's total; "All Done" is
      shown only for an empty list with a total of 0. */
  lemma LoadMoreOfferedIffBehind(tweets: seq<Tweet>, totalTweets: int)
    ensures var v := ViewFor(tweets, totalTweets);
            (v == LoadMorePromptView || v == ListView(true)) <==> |tweets| < totalTweets
    ensures ViewFor(tweets, totalTweets) == AllDoneView <==> |tweets| == 0 && totalTweets == 0
  {
  }

  // ---------------------------------------------------------------------
  // The component's state

  class TweetListState {
    var selected: set<TweetId>
    var filters: TypeFilters

    /** At least one filter is always on. */
    ghost predicate Valid()
      reads this
    {
      AnyOn(filters)
    }

    constructor ()
      ensures Valid() && selected == {} && filters == ALL_ON
    {
      selected, filters := {}, ALL_ON;
    }

    /** `toggleFilter`: refused when it would turn the last filter off;
        otherwise flips the filter and clears the selection. */
    method ToggleFilter(kind: TweetType) returns (accepted: bool)
      requires Valid()
      modifies this
      ensures Valid()
      ensures accepted <==> AnyOn(Flip(old(filters), kind))
      ensures accepted ==> filters == Flip(old(filters), kind) && selected == {}
      ensures !accepted ==> filters == old(filters) && selected == old(selected)
    {
      var newFilters := Flip(filters, kind);
      accepted := AnyOn(newFilters);
      if accepted {
        filters := newFilters;
        selected := {};
      }
    }

    /** `toggleSelect`. */
    method ToggleSelect(id: TweetId, maxSelection: nat)
      requires Valid()
      modifies this`selected
      ensures Valid()
      ensures selected == ToggledSelection(old(selected), id, maxSelection)
      ensures old(|selected|) <= maxSelection ==> |selected| <= maxSelection
    {
      if |selected| <= maxSelection {
        ToggleRespectsCap(selected, id, maxSelection);
      }
      var newSelected := selected;
      if id in newSelected {
        newSelected := newSelected - {id};
      } else if |newSelected| < maxSelection {
        newSelected := newSelected + {id};
      }
      selected := newSelected;
    }

    /** `selectAll`: the ids of the first `maxSelection` filtered posts. */
    method SelectAll(tweets: seq<Tweet>, maxSelection: nat)
      requires Valid()
      modifies this`selected
      ensures Valid()
      ensures selected == FirstIds(FilteredTweets(tweets, filters), maxSelection)
      ensures |selected| <= maxSelection
    {
      FirstIdsAtMost(FilteredTweets(tweets, filters), maxSelection);
      selected := FirstIds(FilteredTweets(tweets, filters), maxSelection);
    }

    /** The effect keyed on `tweets.length`: whenever the list's length
        changes (a page appended, a batch removed) the selection is cleared. */
    method ListLengthChanged(before: nat, after: nat)
      requires Valid()
      modifies this`selected
      ensures Valid()
      ensures selected == if before != after then {} else old(selected)
    {
      if before != after {
        selected := {};
      }
    }

    /** `deselectAll`. */
    method DeselectAll()
      requires Valid()
      modifies this`selected
      ensures Valid()
      ensures selected == {}
    {
      selected := {};
    }
  }
}
