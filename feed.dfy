/** The home feed: posts of friends, the user's own posts and the posts,
    comments and replies that mention the user, tagged with their type and
    source, merged, and sorted newest first. */
module Feed {
  import opened Common
  import opened Pagination

  /** A row as the feed handles it: its keys (the columns plus `type` and
      `source` once tagged), and its `created_at`. A `created_at` in the
      '%Y-%m-%d %H:%M:%S' format parses to a time whose order is that of
      this key. */
  datatype FeedItem = FeedItem(attrs: map<string, string>, createdAt: int)

  /** Every item with `key` set to `value`. */
  function Tagged(items: seq<FeedItem>, key: string, value: string): seq<FeedItem>
  {
    seq(|items|, i requires 0 <= i < |items| => items[i].(attrs := items[i].attrs[key := value]))
  }

  /** Tagging sets the key on every item and changes nothing else: same
      length, same order, same other keys and values, same timestamps. */
  lemma TaggedSetsOnlyKey(items: seq<FeedItem>, key: string, value: string)
    ensures |Tagged(items, key, value)| == |items|
    ensures forall i :: 0 <= i < |items| ==>
              && key in Tagged(items, key, value)[i].attrs
              && Tagged(items, key, value)[i].attrs[key] == value
              && Tagged(items, key, value)[i].createdAt == items[i].createdAt
              && Tagged(items, key, value)[i].attrs.Keys == items[i].attrs.Keys + {key}
              && (forall k :: k in items[i].attrs && k != key ==>
                    Tagged(items, key, value)[i].attrs[k] == items[i].attrs[k])
  {
  }

  /** The loop shared by `setObjectType` and `setObjectSource`: assign
      `objects[i][key] = value` for each element in place. */
  method SetKey(objects: array<FeedItem>, key: string, value: string)
    modifies objects
    ensures objects[..] == Tagged(old(objects[..]), key, value)
  {
    for i := 0 to objects.Length
      invariant forall k :: 0 <= k < i ==> objects[k] == old(objects[k]).(attrs := old(objects[k]).attrs[key := value])
      invariant forall k :: i <= k < objects.Length ==> objects[k] == old(objects[k])
    {
      objects[i] := objects[i].(attrs := objects[i].attrs[key := value]);
    }
  }

  /** `setObjectType`: the list is updated in place (the source also returns it). */
  method SetObjectType(objects: array<FeedItem>, kind: string)
    modifies objects
    ensures objects[..] == Tagged(old(objects[..]), "type", kind)
  {
    SetKey(objects, "type", kind);
  }

  /** `setObjectSource`: the list is updated in place (the source also returns it). */
  method SetObjectSource(objects: array<FeedItem>, source: string)
    modifies objects
    ensures objects[..] == Tagged(old(objects[..]), "source", source)
  {
    SetKey(objects, "source", source);
  }

  predicate NewestFirst(s: seq<FeedItem>)
  {
    forall i, j :: 0 <= i < j < |s| ==> s[i].createdAt >= s[j].createdAt
  }

  /** Place `x` before the first item that is not newer than it. */
  function InsertNewestFirst(x: FeedItem, s: seq<FeedItem>): seq<FeedItem>
  {
    if s == [] || s[0].createdAt <= x.createdAt then [x] + s
    else [s[0]] + InsertNewestFirst(x, s[1..])
  }

  /** `sorted(feed, key=created_at, reverse=True)`. */
  function SortNewestFirst(s: seq<FeedItem>): seq<FeedItem>
  {
    if s == [] then [] else InsertNewestFirst(s[0], SortNewestFirst(s[1..]))
  }

  /** Inserting adds exactly `x`. */
  lemma {:induction false} InsertPermutes(x: FeedItem, s: seq<FeedItem>)
    ensures multiset(InsertNewestFirst(x, s)) == multiset(s) + multiset{x}
    ensures |InsertNewestFirst(x, s)| == |s| + 1
  {
    if s != [] && s[0].createdAt > x.createdAt {
      InsertPermutes(x, s[1..]);
      assert s == [s[0]] + s[1..];
    }
  }

  /** Inserting an item no newer than `bound` into items no newer than
      `bound` gives items no newer than `bound`. */
  lemma {:induction false} InsertBounded(x: FeedItem, s: seq<FeedItem>, bound: int)
    requires x.createdAt <= bound
    requires forall i :: 0 <= i < |s| ==> s[i].createdAt <= bound
    ensures forall i :: 0 <= i < |InsertNewestFirst(x, s)| ==> InsertNewestFirst(x, s)[i].createdAt <= bound
  {
    if s != [] && s[0].createdAt > x.createdAt {
      InsertBounded(x, s[1..], bound);
    }
  }

  /** Inserting into a newest-first list keeps it newest first. */
  lemma {:induction false} InsertKeepsOrder(x: FeedItem, s: seq<FeedItem>)
    requires NewestFirst(s)
    ensures NewestFirst(InsertNewestFirst(x, s))
  {
    if s != [] && s[0].createdAt > x.createdAt {
      var r := InsertNewestFirst(x, s[1..]);
      InsertKeepsOrder(x, s[1..]);
      InsertBounded(x, s[1..], s[0].createdAt);
      var t := [s[0]] + r;
      forall i, j | 0 <= i < j < |t|
        ensures t[i].createdAt >= t[j].createdAt
      {
        if i > 0 {
          assert t[i] == r[i - 1];
        }
        assert t[j] == r[j - 1];
      }
    }
  }

  /** The sort puts the newest item first and is a permutation of its input. */
  lemma {:induction false} SortIsOrderedPermutation(s: seq<FeedItem>)
    ensures NewestFirst(SortNewestFirst(s))
    ensures multiset(SortNewestFirst(s)) == multiset(s)
  {
    if s != [] {
      SortIsOrderedPermutation(s[1..]);
      InsertKeepsOrder(s[0], SortNewestFirst(s[1..]));
      InsertPermutes(s[0], SortNewestFirst(s[1..]));
      assert s == [s[0]] + s[1..];
    }
  }

  function StampIs(k: int): FeedItem -> bool { (o: FeedItem) => o.createdAt == k }

  lemma {:induction false} InsertIsStable(x: FeedItem, s: seq<FeedItem>, k: int)
    ensures Filter(InsertNewestFirst(x, s), StampIs(k))
            == (if x.createdAt == k then [x] else []) + Filter(s, StampIs(k))
  {
    if s == [] || s[0].createdAt <= x.createdAt {
      FilterCons(x, s, StampIs(k));
    } else {
      InsertIsStable(x, s[1..], k);
      FilterCons(s[0], InsertNewestFirst(x, s[1..]), StampIs(k));
      FilterCons(s[0], s[1..], StampIs(k));
      assert [s[0]] + s[1..] == s;
    }
  }

  /** Stability: the items with any one timestamp appear in the sorted feed
      in exactly the order they had before sorting. */
  lemma {:induction false} SortIsStable(s: seq<FeedItem>, k: int)
    ensures Filter(SortNewestFirst(s), StampIs(k)) == Filter(s, StampIs(k))
  {
    if s != [] {
      SortIsStable(s[1..], k);
      InsertIsStable(s[0], SortNewestFirst(s[1..]), k);
      FilterCons(s[0], s[1..], StampIs(k));
      assert [s[0]] + s[1..] == s;
    }
  }

  /** The concatenation `friends_content + users_posts + mentions`, tagged. */
  function TaggedFeed(friendsPosts: seq<FeedItem>, usersPosts: seq<FeedItem>, mentions: seq<FeedItem>): seq<FeedItem>
  {
    Tagged(Tagged(friendsPosts, "type", "post"), "source", "friend")
    + Tagged(Tagged(usersPosts, "type", "post"), "source", "self")
    + Tagged(mentions, "source", "mention")
  }

  /** The feed `home` renders before pagination. */
  function HomeFeed(friendsPosts: seq<FeedItem>, usersPosts: seq<FeedItem>, mentions: seq<FeedItem>): seq<FeedItem>
  {
    SortNewestFirst(TaggedFeed(friendsPosts, usersPosts, mentions))
  }

  /** The home feed is the tagged concatenation reordered newest first,
      with items of equal timestamp in concatenation order. */
  lemma HomeFeedIsSortedMerge(friendsPosts: seq<FeedItem>, usersPosts: seq<FeedItem>, mentions: seq<FeedItem>)
    ensures var feed := HomeFeed(friendsPosts, usersPosts, mentions);
      && NewestFirst(feed)
      && multiset(feed) == multiset(TaggedFeed(friendsPosts, usersPosts, mentions))
      && |feed| == |friendsPosts| + |usersPosts| + |mentions|
      && forall k :: Filter(feed, StampIs(k)) == Filter(TaggedFeed(friendsPosts, usersPosts, mentions), StampIs(k))
  {
    var all := TaggedFeed(friendsPosts, usersPosts, mentions);
    SortIsOrderedPermutation(all);
    assert |SortNewestFirst(all)| == |multiset(SortNewestFirst(all))|;
    forall k ensures Filter(HomeFeed(friendsPosts, usersPosts, mentions), StampIs(k)) == Filter(all, StampIs(k)) {
      SortIsStable(all, k);
    }
  }

  /** Every tagged item has the tag. */
  lemma TaggedHasKey(items: seq<FeedItem>, key: string, value: string)
    ensures forall o :: o in Tagged(items, key, value) ==> key in o.attrs && o.attrs[key] == value
  {
    forall o | o in Tagged(items, key, value)
      ensures key in o.attrs && o.attrs[key] == value
    {
      var i :| 0 <= i < |items| && Tagged(items, key, value)[i] == o;
    }
  }

  /** Tagging with one key keeps a tag already set under another. */
  lemma TaggedKeepsKey(items: seq<FeedItem>, key: string, value: string, other: string, otherValue: string)
    requires other != key
    requires forall o :: o in items ==> other in o.attrs && o.attrs[other] == otherValue
    ensures forall o :: o in Tagged(items, key, value) ==> other in o.attrs && o.attrs[other] == otherValue
  {
    forall o | o in Tagged(items, key, value)
      ensures other in o.attrs && o.attrs[other] == otherValue
    {
      var i :| 0 <= i < |items| && Tagged(items, key, value)[i] == o;
      assert items[i] in items;
    }
  }

  /** Every item of the feed carries the source of the list it came from,
      and friends' posts and own posts are tagged `post`; mentions keep the
      type they already had. */
  lemma HomeFeedSources(friendsPosts: seq<FeedItem>, usersPosts: seq<FeedItem>, mentions: seq<FeedItem>)
    ensures forall o :: o in HomeFeed(friendsPosts, usersPosts, mentions) ==>
              "source" in o.attrs && o.attrs["source"] in {"friend", "self", "mention"}
    ensures forall o :: o in HomeFeed(friendsPosts, usersPosts, mentions) && o.attrs["source"] != "mention" ==>
              "type" in o.attrs && o.attrs["type"] == "post"
  {
    var friends := Tagged(Tagged(friendsPosts, "type", "post"), "source", "friend");
    var own := Tagged(Tagged(usersPosts, "type", "post"), "source", "self");
    var mentioned := Tagged(mentions, "source", "mention");
    TaggedHasKey(friendsPosts, "type", "post");
    TaggedHasKey(usersPosts, "type", "post");
    TaggedHasKey(Tagged(friendsPosts, "type", "post"), "source", "friend");
    TaggedHasKey(Tagged(usersPosts, "type", "post"), "source", "self");
    TaggedHasKey(mentions, "source", "mention");
    TaggedKeepsKey(Tagged(friendsPosts, "type", "post"), "source", "friend", "type", "post");
    TaggedKeepsKey(Tagged(usersPosts, "type", "post"), "source", "self", "type", "post");
    var all := TaggedFeed(friendsPosts, usersPosts, mentions);
    assert all == friends + own + mentioned;
    SortIsOrderedPermutation(all);
    forall o | o in HomeFeed(friendsPosts, usersPosts, mentions)
      ensures o in friends || o in own || o in mentioned
    {
      assert o in multiset(HomeFeed(friendsPosts, usersPosts, mentions));
      assert o in all;
    }
  }

  /** Every page of the home feed is newest first. */
  lemma HomePageIsNewestFirst(friendsPosts: seq<FeedItem>, usersPosts: seq<FeedItem>, mentions: seq<FeedItem>, page: nat)
    ensures NewestFirst(ListPage(HomeFeed(friendsPosts, usersPosts, mentions), page).items)
  {
    var feed := HomeFeed(friendsPosts, usersPosts, mentions);
    SortIsOrderedPermutation(TaggedFeed(friendsPosts, usersPosts, mentions));
    ListPageShape(feed, page);
  }

  /** The assembly in `home`: tag the three lists in place, concatenate and sort. */
  method AssembleHomeFeed(friendsContent: array<FeedItem>, mentions: array<FeedItem>, usersPosts: array<FeedItem>)
    returns (feed: seq<FeedItem>)
    requires friendsContent != mentions && friendsContent != usersPosts && mentions != usersPosts
    modifies friendsContent, mentions, usersPosts
    ensures friendsContent[..] == Tagged(Tagged(old(friendsContent[..]), "type", "post"), "source", "friend")
    ensures usersPosts[..] == Tagged(Tagged(old(usersPosts[..]), "type", "post"), "source", "self")
    ensures mentions[..] == Tagged(old(mentions[..]), "source", "mention")
    ensures feed == HomeFeed(old(friendsContent[..]), old(usersPosts[..]), old(mentions[..]))
  {
    SetObjectType(friendsContent, "post");
    SetObjectSource(friendsContent, "friend");
    SetObjectSource(mentions, "mention");
    SetObjectType(usersPosts, "post");
    SetObjectSource(usersPosts, "self");
    feed := SortNewestFirst(friendsContent[..] + usersPosts[..] + mentions[..]);
  }
}
