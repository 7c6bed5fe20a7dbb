/** The relational store behind the application, held in memory: users,
    posts, comments, replies, friendships and course enrolments. Each SQL
    `DELETE` becomes an order-preserving filter of its table, each `INSERT`
    an append, each `UPDATE` a per-row rewrite, and each `SELECT ... WHERE`
    the filtered rows in table order. */
module Store {
  import opened Common

  /** A z_id, or the uuid-derived id of a post, comment or reply. */
  type Id = string

  datatype Post = Post(id: Id, user: Id, message: string, createdAt: int)
  datatype Comment = Comment(id: Id, post: Id, user: Id, message: string, createdAt: int)
  datatype Reply = Reply(id: Id, comment: Id, post: Id, user: Id, message: string, createdAt: int)

  /** A row of `friends`: `reference` asked `friend`; `accepted` is 0 while
      pending and 1 once accepted. Accepted friendships are stored in both
      directions. */
  datatype Friendship = Friendship(reference: Id, friend: Id, accepted: int)

  /** A row of `courses`. */
  datatype Enrolment = Enrolment(user: Id, year: string, code: string, semester: string)

  /** The whole store as a value. */
  datatype Tables = Tables(
    users: set<Id>, posts: seq<Post>, comments: seq<Comment>, replies: seq<Reply>,
    friends: seq<Friendship>, courses: seq<Enrolment>)

  // ----- the WHERE clauses the application uses -----

  function PostIdNotIn(ids: set<Id>): Post -> bool { (p: Post) => p.id !in ids }
  function CommentIdNotIn(ids: set<Id>): Comment -> bool { (c: Comment) => c.id !in ids }
  function ReplyIdNotIn(ids: set<Id>): Reply -> bool { (r: Reply) => r.id !in ids }
  function CommentOnPost(postId: Id): Comment -> bool { (c: Comment) => c.post == postId }
  function CommentNotOnPost(postId: Id): Comment -> bool { (c: Comment) => c.post != postId }
  function ReplyOnComment(commentId: Id): Reply -> bool { (r: Reply) => r.comment == commentId }
  function ReplyOnCommentIn(ids: set<Id>): Reply -> bool { (r: Reply) => r.comment in ids }
  function ReplyNotOnCommentIn(ids: set<Id>): Reply -> bool { (r: Reply) => r.comment !in ids }

  function CommentIds(cs: seq<Comment>): set<Id> { set c | c in cs :: c.id }
  function ReplyIds(rs: seq<Reply>): set<Id> { set r | r in rs :: r.id }

  lemma CommentIdsSnoc(cs: seq<Comment>, i: nat)
    requires i < |cs|
    ensures CommentIds(cs[..i + 1]) == CommentIds(cs[..i]) + {cs[i].id}
  {
    assert cs[..i + 1] == cs[..i] + [cs[i]];
  }

  lemma ReplyIdsSnoc(rs: seq<Reply>, i: nat)
    requires i < |rs|
    ensures ReplyIds(rs[..i + 1]) == ReplyIds(rs[..i]) + {rs[i].id}
  {
    assert rs[..i + 1] == rs[..i] + [rs[i]];
  }

  /** Deleting the replies of `rs[..i]` by id and then `rs[i]`'s id is
      deleting the replies of `rs[..i + 1]`. */
  lemma DeleteOneMoreReply(replies: seq<Reply>, rs: seq<Reply>, i: nat)
    requires i < |rs|
    ensures Filter(Filter(replies, ReplyIdNotIn(ReplyIds(rs[..i]))), ReplyIdNotIn({rs[i].id}))
            == Filter(replies, ReplyIdNotIn(ReplyIds(rs[..i + 1])))
  {
    ReplyIdsSnoc(rs, i);
    FilterFilter(replies, ReplyIdNotIn(ReplyIds(rs[..i])), ReplyIdNotIn({rs[i].id}), ReplyIdNotIn(ReplyIds(rs[..i + 1])));
  }

  /** The same for comments. */
  lemma DeleteOneMoreComment(comments: seq<Comment>, cs: seq<Comment>, i: nat)
    requires i < |cs|
    ensures Filter(Filter(comments, CommentIdNotIn(CommentIds(cs[..i]))), CommentIdNotIn({cs[i].id}))
            == Filter(comments, CommentIdNotIn(CommentIds(cs[..i + 1])))
  {
    CommentIdsSnoc(cs, i);
    FilterFilter(comments, CommentIdNotIn(CommentIds(cs[..i])), CommentIdNotIn({cs[i].id}), CommentIdNotIn(CommentIds(cs[..i + 1])));
  }

  // ----- cascade deletion -----

  /** `deleteReply`: every reply with that id is gone. */
  function DeleteReplySpec(t: Tables, replyId: Id): Tables
  {
    t.(replies := Filter(t.replies, ReplyIdNotIn({replyId})))
  }

  /** `deleteComments`: the replies selected by `comment = id` are deleted
      by their ids, then every comment with that id. */
  function DeleteCommentSpec(t: Tables, commentId: Id): Tables
  {
    var doomed := ReplyIds(Filter(t.replies, ReplyOnComment(commentId)));
    t.(replies := Filter(t.replies, ReplyIdNotIn(doomed)),
       comments := Filter(t.comments, CommentIdNotIn({commentId})))
  }

  /** The comments of `postId` that `deletePost` selects, by id. */
  function DoomedComments(t: Tables, postId: Id): set<Id>
  {
    CommentIds(Filter(t.comments, CommentOnPost(postId)))
  }

  /** The replies that `deletePost` deletes, by id: those selected under
      any of the post's comments. */
  function DoomedReplies(t: Tables, postId: Id): set<Id>
  {
    ReplyIds(Filter(t.replies, ReplyOnCommentIn(DoomedComments(t, postId))))
  }

  /** `deletePost`: the post, the comments selected by `post = id`, and the
      replies under those comments, each deleted by id. */
  function DeletePostSpec(t: Tables, postId: Id): Tables
  {
    t.(posts := Filter(t.posts, PostIdNotIn({postId})),
       comments := Filter(t.comments, CommentIdNotIn(DoomedComments(t, postId))),
       replies := Filter(t.replies, ReplyIdNotIn(DoomedReplies(t, postId))))
  }

  /** Deleting one more comment's replies, with the replies re-selected from
      what is left, removes exactly the replies under the enlarged set of
      comments. */
  lemma CascadeStep(rs: seq<Reply>, done: set<Id>, c: Id)
    ensures var gone := ReplyIds(Filter(rs, ReplyOnCommentIn(done)));
            var left := Filter(rs, ReplyIdNotIn(gone));
            Filter(left, ReplyIdNotIn(ReplyIds(Filter(left, ReplyOnComment(c)))))
            == Filter(rs, ReplyIdNotIn(ReplyIds(Filter(rs, ReplyOnCommentIn(done + {c})))))
  {
    var gone := ReplyIds(Filter(rs, ReplyOnCommentIn(done)));
    var left := Filter(rs, ReplyIdNotIn(gone));
    var more := ReplyIds(Filter(left, ReplyOnComment(c)));
    var all := ReplyIds(Filter(rs, ReplyOnCommentIn(done + {c})));
    forall x | x in all ensures x in gone + more {
      var y :| y in Filter(rs, ReplyOnCommentIn(done + {c})) && y.id == x;
      if y.comment in done {
        assert y in Filter(rs, ReplyOnCommentIn(done));
      } else if x !in gone {
        assert y in left;
        assert y in Filter(left, ReplyOnComment(c));
      }
    }
    forall x | x in gone + more ensures x in all {
      if x in gone {
        var y :| y in Filter(rs, ReplyOnCommentIn(done)) && y.id == x;
        assert y in Filter(rs, ReplyOnCommentIn(done + {c}));
      } else {
        var y :| y in Filter(left, ReplyOnComment(c)) && y.id == x;
        assert y in Filter(rs, ReplyOnCommentIn(done + {c}));
      }
    }
    assert gone + more == all;
    FilterFilter(rs, ReplyIdNotIn(gone), ReplyIdNotIn(more), ReplyIdNotIn(all));
  }

  /** Rows are identified by their ids: two rows of one table with the same
      id are the same row (ids are fresh uuids in the application). */
  ghost predicate KeyedById(t: Tables)
  {
    && (forall c, d :: c in t.comments && d in t.comments && c.id == d.id ==> c == d)
    && (forall r, s :: r in t.replies && s in t.replies && r.id == s.id ==> r == s)
  }

  /** What `deletePost` is meant to do: remove the post, the comments on it
      and the replies under those comments, and nothing else. */
  function CascadeReference(t: Tables, postId: Id): Tables
  {
    var doomed := DoomedComments(t, postId);
    t.(posts := Filter(t.posts, PostIdNotIn({postId})),
       comments := Filter(t.comments, CommentNotOnPost(postId)),
       replies := Filter(t.replies, ReplyNotOnCommentIn(doomed)))
  }

  /** After `deletePost(p)` no post has id `p`, no comment on `p` is left,
      and no reply under one of those comments is left; users, friendships
      and enrolments are untouched, and every post, comment and reply whose
      id was not selected stays. This holds whatever the ids. */
  lemma DeletePostRemovesCascade(t: Tables, postId: Id)
    ensures var t' := DeletePostSpec(t, postId);
      && (forall p :: p in t'.posts ==> p.id != postId)
      && (forall c :: c in t'.comments ==> c.post != postId)
      && (forall r :: r in t'.replies ==> r.comment !in DoomedComments(t, postId))
      && (forall p :: p in t.posts && p.id != postId ==> p in t'.posts)
      && (forall c :: c in t.comments && c.id !in DoomedComments(t, postId) ==> c in t'.comments)
      && (forall r :: r in t.replies && r.id !in DoomedReplies(t, postId) ==> r in t'.replies)
      && t'.users == t.users && t'.friends == t.friends && t'.courses == t.courses
  {
  }

  /** When ids identify rows, `deletePost` deletes exactly the cascade and
      nothing else: in particular a reply whose `post` is `p` but whose
      comment is not one of `p`'s comments survives. */
  lemma DeletePostMatchesReference(t: Tables, postId: Id)
    requires KeyedById(t)
    ensures DeletePostSpec(t, postId) == CascadeReference(t, postId)
  {
    var cs := Filter(t.comments, CommentOnPost(postId));
    var doomed := DoomedComments(t, postId);
    forall c | c in t.comments ensures CommentIdNotIn(doomed)(c) == CommentNotOnPost(postId)(c) {
      if c.id in doomed {
        var d :| d in cs && d.id == c.id;
      } else {
        assert c.post == postId ==> c in cs;
      }
    }
    FilterCongruent(t.comments, CommentIdNotIn(doomed), CommentNotOnPost(postId));
    var rs := Filter(t.replies, ReplyOnCommentIn(doomed));
    var doomedReplies := DoomedReplies(t, postId);
    forall r | r in t.replies ensures ReplyIdNotIn(doomedReplies)(r) == ReplyNotOnCommentIn(doomed)(r) {
      if r.id in doomedReplies {
        var s :| s in rs && s.id == r.id;
      } else {
        assert r.comment in doomed ==> r in rs;
      }
    }
    FilterCongruent(t.replies, ReplyIdNotIn(doomedReplies), ReplyNotOnCommentIn(doomed));
  }

  /** After `deleteComments(c)` no comment has id `c` and no reply of `c` is
      left; when reply ids identify rows, every other reply stays. */
  lemma DeleteCommentRemovesReplies(t: Tables, commentId: Id)
    ensures var t' := DeleteCommentSpec(t, commentId);
      && (forall c :: c in t'.comments ==> c.id != commentId)
      && (forall r :: r in t'.replies ==> r.comment != commentId)
      && (forall c :: c in t.comments && c.id != commentId ==> c in t'.comments)
      && t'.posts == t.posts && t'.users == t.users && t'.friends == t.friends && t'.courses == t.courses
    ensures KeyedById(t) ==> forall r :: r in t.replies && r.comment != commentId ==> r in DeleteCommentSpec(t, commentId).replies
  {
  }

  // ----- friendships -----

  /** The `WHERE reference = a and friend = b` of `removefriend`, negated. */
  function NotAskedBy(a: Id, b: Id): Friendship -> bool { (f: Friendship) => !(f.reference == a && f.friend == b) }

  /** Neither direction between `a` and `b`. */
  function NotBetween(a: Id, b: Id): Friendship -> bool { (f: Friendship) => NotAskedBy(a, b)(f) && NotAskedBy(b, a)(f) }

  /** The rows `getFriends(z)` selects: `reference = z and accepted = 1`. */
  function AcceptedFrom(z: Id): Friendship -> bool { (f: Friendship) => f.reference == z && f.accepted == 1 }

  predicate Accepted(rows: seq<Friendship>, a: Id, b: Id) { Friendship(a, b, 1) in rows }

  predicate Pending(rows: seq<Friendship>, a: Id, b: Id) { Friendship(a, b, 0) in rows }

  /** Some row from `a` to `b`, in any state. */
  predicate Linked(rows: seq<Friendship>, a: Id, b: Id)
  {
    exists i :: 0 <= i < |rows| && rows[i].reference == a && rows[i].friend == b
  }

  /** `UPDATE friends SET accepted=1 WHERE reference=r and friend=f`. */
  function MarkAccepted(rows: seq<Friendship>, r: Id, f: Id): (out: seq<Friendship>)
    ensures |out| == |rows|
    ensures forall i :: 0 <= i < |rows| ==>
              out[i] == if rows[i].reference == r && rows[i].friend == f then rows[i].(accepted := 1) else rows[i]
  {
    if rows == [] then []
    else
      var head := if rows[0].reference == r && rows[0].friend == f then rows[0].(accepted := 1) else rows[0];
      [head] + MarkAccepted(rows[1..], r, f)
  }

  /** `friend_request`: a pending row from `me` to `f`; the source raises
      while looking up `f`'s email when `f` is not a user, before inserting. */
  function FriendRequestSpec(t: Tables, me: Id, f: Id): Tables
  {
    if f in t.users then t.(friends := t.friends + [Friendship(me, f, 0)]) else t
  }

  /** `addfriend`: mark the request accepted and insert the other direction. */
  function AcceptSpec(t: Tables, reference: Id, friend: Id): Tables
  {
    t.(friends := MarkAccepted(t.friends, reference, friend) + [Friendship(friend, reference, 1)])
  }

  /** `removefriend`: delete every row between the two, in both directions. */
  function RemoveSpec(t: Tables, me: Id, f: Id): Tables
  {
    t.(friends := Filter(t.friends, NotBetween(me, f)))
  }

  /** The ids `getFriends(z)` looks up, in table order. */
  function FriendIds(rows: seq<Friendship>, z: Id): (ids: seq<Id>)
    ensures forall u :: u in ids <==> Accepted(rows, z, u)
  {
    var sel := Filter(rows, AcceptedFrom(z));
    var ids := seq(|sel|, i requires 0 <= i < |sel| => sel[i].friend);
    forall u | u in ids ensures Accepted(rows, z, u) {
      var i :| 0 <= i < |ids| && ids[i] == u;
      assert sel[i] in sel && AcceptedFrom(z)(sel[i]);
      assert sel[i] == Friendship(z, u, 1);
    }
    forall u | Accepted(rows, z, u) ensures u in ids {
      assert AcceptedFrom(z)(Friendship(z, u, 1));
      var i :| 0 <= i < |sel| && sel[i] == Friendship(z, u, 1);
      assert ids[i] == u;
    }
    ids
  }

  /** The user row `getFriends` looks up for an id, reduced to the id; the
      lookup gives `None` for an id with no user. */
  function LookupUser(users: set<Id>, id: Id): Option<Id>
  {
    if id in users then Some(id) else None
  }

  /** A request to an existing user adds exactly one pending row. */
  lemma RequestAddsPending(t: Tables, me: Id, f: Id)
    ensures f in t.users ==> FriendRequestSpec(t, me, f).friends == t.friends + [Friendship(me, f, 0)]
    ensures f in t.users ==> Pending(FriendRequestSpec(t, me, f).friends, me, f)
    ensures f !in t.users ==> FriendRequestSpec(t, me, f) == t
  {
  }

  /** Accepting an existing request makes the friendship accepted in both
      directions, and every other row keeps its state. */
  lemma {:induction false} AcceptIsBidirectional(t: Tables, reference: Id, friend: Id)
    requires Linked(t.friends, reference, friend)
    ensures Accepted(AcceptSpec(t, reference, friend).friends, reference, friend)
    ensures Accepted(AcceptSpec(t, reference, friend).friends, friend, reference)
    ensures forall i :: 0 <= i < |t.friends| && !(t.friends[i].reference == reference && t.friends[i].friend == friend)
              ==> AcceptSpec(t, reference, friend).friends[i] == t.friends[i]
  {
    var i :| 0 <= i < |t.friends| && t.friends[i].reference == reference && t.friends[i].friend == friend;
    var out := AcceptSpec(t, reference, friend).friends;
    assert out[i] == Friendship(reference, friend, 1);
    assert out[|out| - 1] == Friendship(friend, reference, 1);
  }

  /** Without a request from `reference` to `friend`, `addfriend` (which needs
      no login) still inserts `friend -> reference` but the other direction
      stays missing. */
  lemma AcceptWithoutRequestIsOneWay(t: Tables, reference: Id, friend: Id)
    requires !Linked(t.friends, reference, friend) && reference != friend
    ensures !Accepted(AcceptSpec(t, reference, friend).friends, reference, friend)
    ensures Accepted(AcceptSpec(t, reference, friend).friends, friend, reference)
  {
    var out := AcceptSpec(t, reference, friend).friends;
    assert out[|out| - 1] == Friendship(friend, reference, 1);
    if Accepted(out, reference, friend) {
      var k :| 0 <= k < |out| && out[k] == Friendship(reference, friend, 1);
    }
  }

  /** A request to an existing user followed by its acceptance leaves the
      two users friends in both directions. */
  lemma RequestThenAccept(t: Tables, me: Id, f: Id)
    requires f in t.users
    ensures var t' := AcceptSpec(FriendRequestSpec(t, me, f), me, f);
            Accepted(t'.friends, me, f) && Accepted(t'.friends, f, me)
            && f in FriendIds(t'.friends, me) && me in FriendIds(t'.friends, f)
  {
    var t1 := FriendRequestSpec(t, me, f);
    assert t1.friends[|t1.friends| - 1] == Friendship(me, f, 0);
    AcceptIsBidirectional(t1, me, f);
  }

  /** Removing a friendship deletes every row between the two users in
      either direction and keeps every other row. */
  lemma RemoveDeletesBothDirections(t: Tables, me: Id, f: Id)
    ensures var rows := RemoveSpec(t, me, f).friends;
      && (forall row :: row in rows ==> !(row.reference == me && row.friend == f))
      && (forall row :: row in rows ==> !(row.reference == f && row.friend == me))
      && (forall row :: row in t.friends && NotBetween(me, f)(row) ==> row in rows)
      && f !in FriendIds(rows, me) && me !in FriendIds(rows, f)
      && RemoveSpec(t, me, f).(friends := t.friends) == t
  {
    var rows := RemoveSpec(t, me, f).friends;
    forall row | row in rows ensures !(row.reference == me && row.friend == f) && !(row.reference == f && row.friend == me) {
      assert NotBetween(me, f)(row);
      assert NotAskedBy(me, f)(row) && NotAskedBy(f, me)(row);
    }
  }

  // ----- course enrolment -----

  /** ASCII upper-casing of one character. */
  function UpperChar(c: char): char
  {
    if 'a' <= c <= 'z' then (c as int - 32) as char else c
  }

  /** `str.upper()`, for ASCII letters: each lower-case letter becomes the
      upper-case letter at the same place in the alphabet, and every other
      character is kept. */
  function Upper(s: string): (r: string)
    ensures |r| == |s|
    ensures forall i :: 0 <= i < |s| && 'a' <= s[i] <= 'z' ==>
              'A' <= r[i] <= 'Z' && r[i] as int - 'A' as int == s[i] as int - 'a' as int
    ensures forall i :: 0 <= i < |s| && !('a' <= s[i] <= 'z') ==> r[i] == s[i]
  {
    seq(|s|, i requires 0 <= i < |s| => UpperChar(s[i]))
  }

  lemma UpperIdempotent(s: string)
    ensures Upper(Upper(s)) == Upper(s)
    ensures forall i :: 0 <= i < |s| ==> !('a' <= Upper(s)[i] <= 'z')
  {
  }

  /** `add_course`: enrol with the upper-cased code unless an identical
      enrolment exists. */
  function AddCourseSpec(t: Tables, user: Id, year: string, code: string, semester: string): Tables
  {
    var row := Enrolment(user, year, Upper(code), semester);
    if row in t.courses then t else t.(courses := t.courses + [row])
  }

  predicate NoDuplicates<T(==)>(s: seq<T>)
  {
    forall i, j :: 0 <= i < j < |s| ==> s[i] != s[j]
  }

  /** Enrolling is idempotent, and codes that differ only in case are the
      same course: the second call changes nothing. */
  lemma AddCourseIdempotent(t: Tables, user: Id, year: string, code: string, code': string, semester: string)
    requires Upper(code') == Upper(code)
    ensures var t1 := AddCourseSpec(t, user, year, code, semester);
            AddCourseSpec(t1, user, year, code', semester) == t1
  {
    var row := Enrolment(user, year, Upper(code), semester);
    var t1 := AddCourseSpec(t, user, year, code, semester);
    assert t1.courses == t.courses || t1.courses[|t1.courses| - 1] == row;
  }

  /** After enrolling, the user is enrolled with the upper-cased code, no
      earlier enrolment is lost, only `courses` changes, and a table
      without duplicates stays without duplicates. */
  lemma AddCourseEnrols(t: Tables, user: Id, year: string, code: string, semester: string)
    ensures var t' := AddCourseSpec(t, user, year, code, semester);
      && Enrolment(user, year, Upper(code), semester) in t'.courses
      && t.courses <= t'.courses && |t'.courses| <= |t.courses| + 1
      && t'.(courses := t.courses) == t
      && (NoDuplicates(t.courses) ==> NoDuplicates(t'.courses))
  {
    var t' := AddCourseSpec(t, user, year, code, semester);
    assert t'.courses == t.courses || t'.courses[|t'.courses| - 1] == Enrolment(user, year, Upper(code), semester);
  }

  // ----- the store itself -----

  class ContentStore {
    var users: set<Id>
    var posts: seq<Post>
    var comments: seq<Comment>
    var replies: seq<Reply>
    var friends: seq<Friendship>
    var courses: seq<Enrolment>

    function State(): Tables
      reads this
    {
      Tables(users, posts, comments, replies, friends, courses)
    }

    constructor (registered: set<Id>)
      ensures State() == Tables(registered, [], [], [], [], [])
    {
      users, posts, comments, replies, friends, courses := registered, [], [], [], [], [];
    }

    /** `deleteReply`. */
    method DeleteReply(replyId: Id)
      modifies this
      ensures State() == DeleteReplySpec(old(State()), replyId)
    {
      replies := Filter(replies, ReplyIdNotIn({replyId}));
    }

    /** `deleteComments`: select the replies of the comment, delete each by
      id, then delete the comment. */
    method DeleteComments(commentId: Id)
      modifies this
      ensures State() == DeleteCommentSpec(old(State()), commentId)
    {
      var children := Filter(replies, ReplyOnComment(commentId));
      ghost var before := replies;
      FilterKeepsAll(replies, ReplyIdNotIn({}));
      assert ReplyIds(children[..0]) == {};
      var i := 0;
      while i < |children|
        invariant 0 <= i <= |children|
        invariant replies == Filter(before, ReplyIdNotIn(ReplyIds(children[..i])))
        invariant users == old(users) && posts == old(posts) && comments == old(comments)
        invariant friends == old(friends) && courses == old(courses)
      {
        DeleteReply(children[i].id);
        DeleteOneMoreReply(before, children, i);
        i := i + 1;
      }
      assert children[..|children|] == children;
      comments := Filter(comments, CommentIdNotIn({commentId}));
    }

    /** `deletePost`: select the comments of the post, delete each with its
      replies, then delete the post. */
    method DeletePost(postId: Id)
      modifies this
      ensures State() == DeletePostSpec(old(State()), postId)
    {
      var children := Filter(comments, CommentOnPost(postId));
      FilterKeepsAll(comments, CommentIdNotIn({}));
      FilterKeepsNone(replies, ReplyOnCommentIn({}));
      assert CommentIds(children[..0]) == {};
      assert ReplyIds([]) == {};
      FilterKeepsAll(replies, ReplyIdNotIn({}));
      ghost var cs0, rs0 := comments, replies;
      var i := 0;
      while i < |children|
        invariant 0 <= i <= |children|
        invariant comments == Filter(cs0, CommentIdNotIn(CommentIds(children[..i])))
        invariant replies == Filter(rs0, ReplyIdNotIn(ReplyIds(Filter(rs0, ReplyOnCommentIn(CommentIds(children[..i]))))))
        invariant users == old(users) && posts == old(posts)
        invariant friends == old(friends) && courses == old(courses)
      {
        var c := children[i].id;
        CommentIdsSnoc(children, i);
        CascadeStep(rs0, CommentIds(children[..i]), c);
        DeleteOneMoreComment(cs0, children, i);
        DeleteComments(c);
        i := i + 1;
      }
      assert children[..|children|] == children;
      posts := Filter(posts, PostIdNotIn({postId}));
    }

    /** `friend_request`: `ok` is false when `f` is not a user, in which case
      nothing is inserted. Sending the email is not modelled. */
    method FriendRequest(me: Id, f: Id) returns (ok: bool)
      modifies this
      ensures ok == (f in old(users))
      ensures State() == FriendRequestSpec(old(State()), me, f)
    {
      ok := f in users;
      if ok {
        friends := friends + [Friendship(me, f, 0)];
      }
    }

    /** `addfriend`. */
    method AddFriend(reference: Id, friend: Id)
      modifies this
      ensures State() == AcceptSpec(old(State()), reference, friend)
    {
      friends := MarkAccepted(friends, reference, friend);
      friends := friends + [Friendship(friend, reference, 1)];
    }

    /** `removefriend`: two deletes, one per direction. */
    method RemoveFriend(me: Id, f: Id)
      modifies this
      ensures State() == RemoveSpec(old(State()), me, f)
    {
      friends := Filter(friends, NotAskedBy(me, f));
      friends := Filter(friends, NotAskedBy(f, me));
      FilterFilter(old(friends), NotAskedBy(me, f), NotAskedBy(f, me), NotBetween(me, f));
    }

    /** `getFriends`: the user looked up for each selected row, in table order. */
    method GetFriends(z: Id) returns (result: seq<Option<Id>>)
      ensures |result| == |FriendIds(friends, z)|
      ensures forall k :: 0 <= k < |result| ==> result[k] == LookupUser(users, FriendIds(friends, z)[k])
      ensures forall u :: Some(u) in result <==> u in users && Accepted(friends, z, u)
    {
      var results := Filter(friends, AcceptedFrom(z));
      ghost var ids := FriendIds(friends, z);
      result := [];
      for i := 0 to |results|
        invariant |result| == i
        invariant forall k :: 0 <= k < i ==> result[k] == LookupUser(users, ids[k])
      {
        result := result + [LookupUser(users, results[i].friend)];
      }
      forall u | Some(u) in result ensures u in users && Accepted(friends, z, u) {
        var k :| 0 <= k < |result| && result[k] == Some(u);
        assert ids[k] == u;
      }
      forall u | u in users && Accepted(friends, z, u) ensures Some(u) in result {
        var k :| 0 <= k < |ids| && ids[k] == u;
        assert result[k] == Some(u);
      }
    }

    /** `add_course`. */
    method AddCourse(user: Id, year: string, code: string, semester: string)
      modifies this
      ensures State() == AddCourseSpec(old(State()), user, year, code, semester)
    {
      var row := Enrolment(user, year, Upper(code), semester);
      if row !in courses {
        courses := courses + [row];
      }
    }
  }
}
