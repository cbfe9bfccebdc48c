/**
 * The community feed: posts and comments with up/down vote counters, one
 * vote record per user and item, a daily posting quota, the orderings
 * used for display, the load filter that hides heavily downvoted posts,
 * and the relative-time labels.
 *
 * The backing store is either the realtime database or, when it is not
 * ready, the browser's local storage. Only the page's own copies are
 * modelled (the `posts` array, the `comments` object, the vote dictionaries
 * and the per-user, per-day post counters); what the database does with a
 * write is summarised by `Backend`.
 */
module Feed {
  import opened Wrappers
  import opened Text
  import Ranking
  import Identity

  // ---------------------------------------------------------------------------
  // votes on one item

  datatype Direction = Up | Down

  /** The `upvotes` and `downvotes` fields of a post or a comment. */
  datatype Counters = Counters(up: int, down: int)

  predicate NonNegative(c: Counters) { c.up >= 0 && c.down >= 0 }

  function Score(c: Counters): int { c.up - c.down }

  /** `Math.max(0, x - 1)`. */
  function Decrement(x: int): (r: int)
    ensures r >= 0
    ensures x >= 1 ==> r == x - 1
    ensures x <= 1 ==> r == 0
  {
    if x - 1 > 0 then x - 1 else 0
  }

  /** The counters after a click, and the user's vote record afterwards (`None` when deleted). */
  datatype VoteOutcome = VoteOutcome(counters: Counters, record: Option<Direction>)

  /**
   * The transition in `vote`/`voteComment`: undo the previous vote, never
   * going below zero; then, unless the click repeats the previous vote,
   * record the click and count it.
   */
  function VoteStep(c: Counters, previous: Option<Direction>, click: Direction): (o: VoteOutcome)
    ensures o.record.None? <==> previous == Some(click)
    ensures o.record.Some? ==> o.record.value == click
    ensures NonNegative(c) ==> NonNegative(o.counters)
    ensures previous.None? && click == Up ==> o.counters == Counters(c.up + 1, c.down)
    ensures previous.None? && click == Down ==> o.counters == Counters(c.up, c.down + 1)
  {
    var undone :=
      match previous
      case None => c
      case Some(Up) => c.(up := Decrement(c.up))
      case Some(Down) => c.(down := Decrement(c.down));
    if previous == Some(click) then VoteOutcome(undone, None)
    else
      match click
      case Up => VoteOutcome(undone.(up := undone.up + 1), Some(click))
      case Down => VoteOutcome(undone.(down := undone.down + 1), Some(click))
  }

  function CountOf(c: Counters, d: Direction): int
  {
    if d == Up then c.up else c.down
  }

  /**
   * Clicking the same direction twice retracts: the record is deleted, the
   * clicked counter is back at its value before the first click, and the
   * other counter keeps what the first click did to it.
   */
  lemma RepeatRetracts(c: Counters, previous: Option<Direction>, d: Direction)
    requires previous != Some(d) && NonNegative(c)
    ensures var first := VoteStep(c, previous, d);
            var second := VoteStep(first.counters, first.record, d);
            second.record.None?
            && CountOf(second.counters, d) == CountOf(c, d)
            && (previous.None? ==> second.counters == c)
  {
  }

  /** Switching from up to down: one fewer upvote (never below zero), one more downvote, record `down`. */
  lemma SwitchUpToDown(c: Counters)
    ensures VoteStep(c, Some(Up), Down) == VoteOutcome(Counters(Decrement(c.up), c.down + 1), Some(Down))
  {
  }

  // The counters as a tally of the records: the set of users whose record is each direction.

  function UpVoters(voters: map<string, Direction>): set<string>
  {
    set u | u in voters && voters[u] == Up
  }

  function DownVoters(voters: map<string, Direction>): set<string>
  {
    set u | u in voters && voters[u] == Down
  }

  /** What the counters would be if they counted exactly the recorded votes. */
  function Tally(voters: map<string, Direction>): Counters
  {
    Counters(|UpVoters(voters)|, |DownVoters(voters)|)
  }

  function Lookup(voters: map<string, Direction>, u: string): Option<Direction>
  {
    if u in voters then Some(voters[u]) else None
  }

  /** Writing or deleting one record. */
  function Record(voters: map<string, Direction>, u: string, r: Option<Direction>): (w: map<string, Direction>)
    ensures Lookup(w, u) == r
    ensures forall v :: v != u ==> Lookup(w, v) == Lookup(voters, v)
  {
    if r.Some? then voters[u := r.value] else voters - {u}
  }

  /** Writing back the record read before a change undoes the change. */
  lemma RecordRestores(voters: map<string, Direction>, u: string, r: Option<Direction>)
    ensures Record(Record(voters, u, r), u, Lookup(voters, u)) == voters
  {
    var w := Record(Record(voters, u, r), u, Lookup(voters, u));
    forall v
      ensures v in w <==> v in voters
    {
      assert Lookup(w, v) == Lookup(voters, v);
    }
    forall v | v in w
      ensures w[v] == voters[v]
    {
      assert Lookup(w, v) == Lookup(voters, v);
    }
  }

  /**
   * A click keeps counters that tally the records tallying them: undoing a
   * recorded vote never hits the floor at zero, because that vote is one of
   * those counted.
   */
  lemma VoteKeepsTally(voters: map<string, Direction>, u: string, click: Direction)
    ensures var o := VoteStep(Tally(voters), Lookup(voters, u), click);
            o.counters == Tally(Record(voters, u, o.record))
  {
    var o := VoteStep(Tally(voters), Lookup(voters, u), click);
    var w := voters - {u};
    if u in voters {
      TallyRemove(voters, u);
    } else {
      assert w == voters;
    }
    if o.record.Some? {
      assert voters[u := click] == w[u := click];
      TallyAdd(w, u, click);
    }
  }

  lemma TallyRemove(voters: map<string, Direction>, u: string)
    requires u in voters
    ensures voters[u] == Up ==> Tally(voters - {u}) == Counters(Tally(voters).up - 1, Tally(voters).down)
    ensures voters[u] == Down ==> Tally(voters - {u}) == Counters(Tally(voters).up, Tally(voters).down - 1)
  {
    var w := voters - {u};
    if voters[u] == Up {
      assert UpVoters(w) == UpVoters(voters) - {u};
      assert DownVoters(w) == DownVoters(voters);
    } else {
      assert UpVoters(w) == UpVoters(voters);
      assert DownVoters(w) == DownVoters(voters) - {u};
    }
  }

  lemma TallyAdd(voters: map<string, Direction>, u: string, d: Direction)
    requires u !in voters
    ensures d == Up ==> Tally(voters[u := d]) == Counters(Tally(voters).up + 1, Tally(voters).down)
    ensures d == Down ==> Tally(voters[u := d]) == Counters(Tally(voters).up, Tally(voters).down + 1)
  {
    AddedVoter(voters, u, d);
  }

  lemma AddedVoter(voters: map<string, Direction>, u: string, d: Direction)
    requires u !in voters
    ensures UpVoters(voters[u := d]) == if d == Up then UpVoters(voters) + {u} else UpVoters(voters)
    ensures DownVoters(voters[u := d]) == if d == Down then DownVoters(voters) + {u} else DownVoters(voters)
  {
  }

  /**
   * The rollback after a failed write, `x - (newValue - x)` evaluated when
   * `x` already holds `newValue`: it changes nothing, so a failed write
   * leaves the optimistic counters in place.
   */
  function Rollback(current: int, optimistic: int): (r: int)
    ensures current == optimistic ==> r == optimistic
  {
    current - (optimistic - current)
  }

  // ---------------------------------------------------------------------------
  // vote keys

  /** The key of a user's vote record on an item: `${userId}_${id}`. */
  function VoteKey(userId: string, id: string): (key: string)
    ensures EndsWith(key, "_" + id)
  {
    var key := userId + "_" + id;
    assert key[|key| - |"_" + id|..] == "_" + id;
    key
  }

  /** The realtime listener's reading of a key: split on `_`, drop the first piece, join the rest. */
  function ParseVoteKey(key: string): (id: Option<string>)
    ensures id.None? <==> '_' !in key
  {
    var parts := Split(key, '_');
    if |parts| >= 2 then Some(Join(parts[1..], '_')) else None
  }

  /** For a user id without `_`, parsing a vote key gives the item id back, underscores and all. */
  lemma VoteKeyRoundTrip(userId: string, id: string)
    requires '_' !in userId
    ensures ParseVoteKey(VoteKey(userId, id)) == Some(id)
  {
    assert VoteKey(userId, id) == userId + ['_'] + id;
    SplitAfterPrefix(userId, '_', id);
    var parts := Split(VoteKey(userId, id), '_');
    assert parts[1..] == Split(id, '_');
    JoinSplit(id, '_');
  }

  /** A user id containing `_` breaks the round trip. */
  lemma VoteKeyAmbiguous()
    ensures ParseVoteKey(VoteKey("a_b", "p")) == Some("b_p")
  {
    var key := VoteKey("a_b", "p");
    assert key == "a" + ['_'] + "b_p";
    SplitAfterPrefix("a", '_', "b_p");
    assert Split(key, '_') == ["a"] + Split("b_p", '_');
    assert "b_p" == "b" + ['_'] + "p";
    SplitAfterPrefix("b", '_', "p");
    assert Split("b_p", '_') == ["b"] + Split("p", '_');
    assert Split("p", '_') == ["p"] by {
      assert "p"[1..] == "";
      assert Split("", '_') == [""];
      assert ['p'] + "" == "p";
    }
    assert Split(key, '_')[1..] == ["b", "p"];
    assert Join(["b", "p"], '_') == "b_p";
  }

  /** `key.endsWith(`_${id}`)`: how deletion finds the records of an item. */
  predicate MatchesItem(key: string, id: string)
  {
    EndsWith(key, "_" + id)
  }

  /**
   * Suffix matching finds exactly the records of the item when item ids
   * contain no `_` (the local ids, which are decimal timestamps) or all
   * have the same length (the database's 20-character push ids).
   */
  lemma SuffixMatchesOwnItem(userId: string, other: string, id: string)
    requires ('_' !in other && '_' !in id) || |other| == |id|
    ensures MatchesItem(VoteKey(userId, other), id) <==> other == id
  {
    var key := VoteKey(userId, other);
    assert key == userId + ['_'] + other;
    if '_' !in other && '_' !in id {
      SeparatedSuffix(userId, '_', other, id);
    } else if MatchesItem(key, id) {
      assert key[|key| - |id|..] == id;
      assert key[|key| - |other|..] == other;
    }
  }

  /** Ids of different lengths with underscores are confused: deleting `c` also hits the record on `x_c`. */
  lemma SuffixMatchesOtherItem()
    ensures MatchesItem(VoteKey("u", "x_c"), "c")
  {
  }

  /** The records left after removing those of every listed item. */
  function WithoutRecordsFor(votes: map<string, Direction>, ids: seq<string>): (r: map<string, Direction>)
    ensures forall k :: k in r <==> k in votes && forall j :: 0 <= j < |ids| ==> !MatchesItem(k, ids[j])
    ensures forall k :: k in r ==> r[k] == votes[k]
  {
    map k | k in votes && forall j :: 0 <= j < |ids| ==> !MatchesItem(k, ids[j]) :: votes[k]
  }

  /** With underscore-free ids, removal takes every user's record on a listed item and keeps those on other items. */
  lemma WithoutRecordsForItems(votes: map<string, Direction>, ids: seq<string>, userId: string, id: string)
    requires '_' !in id && forall j :: 0 <= j < |ids| ==> '_' !in ids[j]
    ensures VoteKey(userId, id) in WithoutRecordsFor(votes, ids) <==> VoteKey(userId, id) in votes && id !in ids
  {
    forall j | 0 <= j < |ids|
      ensures MatchesItem(VoteKey(userId, id), ids[j]) <==> id == ids[j]
    {
      SuffixMatchesOwnItem(userId, id, ids[j]);
    }
  }

  /** `getUserVote`: the record under the user's key for the item. */
  function UserVote(votes: map<string, Direction>, userId: string, id: string): (r: Option<Direction>)
    ensures r.Some? <==> VoteKey(userId, id) in votes
    ensures r.Some? ==> r.value == votes[VoteKey(userId, id)]
  {
    Lookup(votes, VoteKey(userId, id))
  }

  // ---------------------------------------------------------------------------
  // posts and comments

  datatype Post = Post(id: string, authorId: string, title: string, content: string,
                       timestamp: int, votes: Counters, avatar: string)

  datatype Comment = Comment(id: string, authorId: string, content: string, timestamp: int, votes: Counters)

  /** The feed order: higher score first, then newer first. */
  function PostRank(p: Post): Ranking.Rank
  {
    Ranking.Rank(Score(p.votes), p.timestamp)
  }

  /** The thread order: higher score first, then older first. */
  function CommentRank(c: Comment): Ranking.Rank
  {
    Ranking.Rank(Score(c.votes), -c.timestamp)
  }

  /** The order of the initial load: newer first. */
  function RecencyRank(p: Post): Ranking.Rank
  {
    Ranking.Rank(p.timestamp, 0)
  }

  /** A post the loader keeps: at most five more downvotes than upvotes. */
  predicate Visible(p: Post)
  {
    p.votes.down - p.votes.up <= 5
  }

  /** `posts.filter(post => (post.downvotes || 0) - (post.upvotes || 0) <= 5)`. */
  function VisiblePosts(ps: seq<Post>): (r: seq<Post>)
    ensures |r| <= |ps|
    ensures forall p :: p in r <==> p in ps && Visible(p)
    ensures forall i :: 0 <= i < |r| ==> Visible(r[i])
  {
    if |ps| == 0 then []
    else
      var rest := VisiblePosts(ps[1..]);
      assert ps == [ps[0]] + ps[1..];
      if Visible(ps[0]) then [ps[0]] + rest else rest
  }

  /** One post is kept exactly when it is visible. */
  lemma VisibleSingle(p: Post)
    ensures VisiblePosts([p]) == if Visible(p) then [p] else []
  {
  }

  /** The filter works post by post: filtering a concatenation concatenates the filtered parts. */
  lemma {:induction false} VisiblePostsAppend(a: seq<Post>, b: seq<Post>)
    ensures VisiblePosts(a + b) == VisiblePosts(a) + VisiblePosts(b)
  {
    if |a| > 0 {
      assert (a + b)[1..] == a[1..] + b;
      VisiblePostsAppend(a[1..], b);
    } else {
      assert a + b == b;
    }
  }

  /** Every visible post is kept as often as it occurs, every hidden one is dropped. */
  lemma {:induction false} VisibleCounts(ps: seq<Post>, p: Post)
    ensures multiset(VisiblePosts(ps))[p] == if Visible(p) then multiset(ps)[p] else 0
  {
    if |ps| > 0 {
      var head, rest := ps[..1], ps[1..];
      assert ps == head + rest && head == [ps[0]];
      VisibleCounts(rest, p);
      VisiblePostsAppend(head, rest);
      VisibleSingle(ps[0]);
      assert multiset(VisiblePosts(ps)) == multiset(VisiblePosts(head)) + multiset(VisiblePosts(rest));
    }
  }

  /** The filter keeps relative order: filtering an ordered list leaves it ordered. */
  lemma {:induction false} VisibleKeepsOrder(ps: seq<Post>, rank: Post -> Ranking.Rank)
    requires Ranking.Ordered(ps, rank)
    ensures Ranking.Ordered(VisiblePosts(ps), rank)
  {
    if |ps| > 0 {
      VisibleKeepsOrder(ps[1..], rank);
      var rest := VisiblePosts(ps[1..]);
      if Visible(ps[0]) {
        var r := [ps[0]] + rest;
        forall i, j | 0 <= i < j < |r|
          ensures Ranking.Before(rank(r[i]), rank(r[j]))
        {
          if i == 0 {
            assert r[j] in ps[1..];
            var k :| 0 <= k < |ps[1..]| && ps[1..][k] == r[j];
            assert ps[k + 1] == r[j];
          } else {
            assert r[i] == rest[i - 1] && r[j] == rest[j - 1];
          }
        }
      }
    }
  }

  /** `findIndex(x => x.id === id)`: the first element carrying the id, none when no element does. */
  function FindIndex<T>(xs: seq<T>, idOf: T -> string, id: string): (i: Option<nat>)
    ensures i.Some? ==> i.value < |xs| && idOf(xs[i.value]) == id && forall k :: 0 <= k < i.value ==> idOf(xs[k]) != id
    ensures i.None? ==> forall k :: 0 <= k < |xs| ==> idOf(xs[k]) != id
  {
    if |xs| == 0 then None
    else if idOf(xs[0]) == id then Some(0)
    else match FindIndex(xs[1..], idOf, id)
      case None => None
      case Some(k) => Some(k + 1)
  }

  function PostId(p: Post): string { p.id }

  function CommentId(c: Comment): string { c.id }

  /** `posts.splice(findIndex(p => p.id === id), 1)` when found. */
  function RemovePost(ps: seq<Post>, id: string): (r: seq<Post>)
    ensures FindIndex(ps, PostId, id).None? ==> r == ps
    ensures FindIndex(ps, PostId, id).Some? ==> var i := FindIndex(ps, PostId, id).value; r == ps[..i] + ps[i + 1..]
  {
    match FindIndex(ps, PostId, id)
    case None => ps
    case Some(i) => ps[..i] + ps[i + 1..]
  }

  // ---------------------------------------------------------------------------
  // posting quota

  const DailyPostLimit: int := 5

  /** `userPosts[userId][day] || 0`. */
  function PostCount(counts: map<string, map<string, int>>, userId: string, day: string): int
  {
    if userId in counts && day in counts[userId] then counts[userId][day] else 0
  }

  /** `canUserPost`: fewer than five posts so far today. */
  predicate CanPost(counts: map<string, map<string, int>>, userId: string, day: string)
  {
    PostCount(counts, userId, day) < DailyPostLimit
  }

  /** Counting one more post for the user on the day; every other counter is unchanged. */
  function RecordPost(counts: map<string, map<string, int>>, userId: string, day: string): (r: map<string, map<string, int>>)
    ensures PostCount(r, userId, day) == PostCount(counts, userId, day) + 1
    ensures forall u, d :: (u, d) != (userId, day) ==> PostCount(r, u, d) == PostCount(counts, u, d)
  {
    var days := if userId in counts then counts[userId] else map[];
    counts[userId := days[day := PostCount(counts, userId, day) + 1]]
  }

  /** Starting from no posts, five recorded posts use up the day's quota, and no fewer do. */
  lemma QuotaAfterFive(counts: map<string, map<string, int>>, userId: string, day: string)
    requires PostCount(counts, userId, day) == 0
    ensures var c4 := RecordPost(RecordPost(RecordPost(RecordPost(counts, userId, day), userId, day), userId, day), userId, day);
            CanPost(c4, userId, day) && !CanPost(RecordPost(c4, userId, day), userId, day)
  {
  }

  // ---------------------------------------------------------------------------
  // relative time

  datatype Age = JustNow | MinutesAgo(minutes: int) | HoursAgo(hours: int) | DaysAgo(days: int)

  const MinuteMs: int := 60000
  const HourMs: int := 3600000
  const DayMs: int := 86400000

  /** `formatTime`: whole minutes, hours or days elapsed (`Math.floor` of the quotient), in the first bucket that fits. */
  function FormatTime(now: int, timestamp: int): (a: Age)
    ensures a.JustNow? <==> now - timestamp < MinuteMs
    ensures a.MinutesAgo? <==> MinuteMs <= now - timestamp < HourMs
    ensures a.HoursAgo? <==> HourMs <= now - timestamp < DayMs
    ensures a.MinutesAgo? ==> 1 <= a.minutes < 60 && a.minutes * MinuteMs <= now - timestamp < (a.minutes + 1) * MinuteMs
    ensures a.HoursAgo? ==> 1 <= a.hours < 24 && a.hours * HourMs <= now - timestamp < (a.hours + 1) * HourMs
    ensures a.DaysAgo? ==> 1 <= a.days && a.days * DayMs <= now - timestamp < (a.days + 1) * DayMs
  {
    var diff := now - timestamp;
    var minutes := diff / MinuteMs;
    var hours := diff / HourMs;
    var days := diff / DayMs;
    if minutes < 1 then JustNow
    else if minutes < 60 then MinutesAgo(minutes)
    else if hours < 24 then HoursAgo(hours)
    else DaysAgo(days)
  }

  /** The label shown for an age. */
  function AgeText(a: Age): string
  {
    match a
    case JustNow => "vừa xong"
    case MinutesAgo(m) => Identity.IntString(m) + " phút trước"
    case HoursAgo(h) => Identity.IntString(h) + " giờ trước"
    case DaysAgo(d) => Identity.IntString(d) + " ngày trước"
  }

  /** Later is never younger: the bucket index does not go down as `now` grows. */
  lemma FormatTimeMonotonic(now: int, later: int, timestamp: int)
    requires now <= later
    ensures AgeOrder(FormatTime(now, timestamp)) <= AgeOrder(FormatTime(later, timestamp))
  {
  }

  function AgeOrder(a: Age): nat
  {
    match a
    case JustNow => 0
    case MinutesAgo(_) => 1
    case HoursAgo(_) => 2
    case DaysAgo(_) => 3
  }

  // ---------------------------------------------------------------------------
  // the feed manager

  /** What happens to the database writes of an operation. */
  datatype Backend =
    | Offline                 // the database is not ready: local storage only
    | Online(writeOk: bool)   // the database is ready; its writes succeed or throw
    | RefsMissing             // the database is ready but the references were never set up

  datatype PostError = Blocked | QuotaReached | WriteFailed | NotInitialized

  datatype CreateResult = Created | Refused(error: PostError)

  datatype DeleteResult = Deleted | Cancelled | NotAuthor | DeleteFailed

  /** How `voteComment` ends: `true`, `false`, or an exception. */
  datatype CommentVoteResult = Voted | NotVoted | Threw

  /** A vote whose outcome is kept and reported as such: local storage, or a database write that succeeds. */
  predicate Synced(backend: Backend)
  {
    backend == Offline || backend == Online(true)
  }

  /**
   * How `voteComment` ends once the comment is found, as written: offline,
   * the call to `saveComments`, which the manager does not have, throws.
   */
  function CommentVoteOutcome(backend: Backend): (r: CommentVoteResult)
    ensures r == Voted <==> backend == Online(true)
    ensures r == Threw <==> backend == Offline
  {
    match backend
    case Offline => Threw
    case Online(writeOk) => if writeOk then Voted else NotVoted
    case RefsMissing => NotVoted
  }

  /** The same with `saveLocalComments` called offline: a comment vote succeeds exactly when a post vote does. */
  function CommentVoteOutcomeCorrected(backend: Backend): (r: CommentVoteResult)
    ensures r == Voted <==> Synced(backend)
    ensures r != Threw
  {
    if Synced(backend) then Voted else NotVoted
  }

  /** Offline, a comment vote throws as written although the same vote on a post succeeds. */
  lemma OfflineCommentVoteThrows()
    ensures Synced(Offline) && CommentVoteOutcome(Offline) == Threw && CommentVoteOutcomeCorrected(Offline) == Voted
  {
  }

  /** The offline copies touched by a deletion. */
  datatype LocalFeed = LocalFeed(comments: map<string, seq<Comment>>,
                                 userVotes: map<string, Direction>,
                                 userCommentVotes: map<string, Direction>)

  /** The ids of a thread's comments, none when there is no thread. */
  function ThreadIds(comments: map<string, seq<Comment>>, postId: string): (ids: seq<string>)
    ensures postId in comments ==> ids == CommentIds(comments[postId])
    ensures postId !in comments ==> ids == []
  {
    if postId in comments then CommentIds(comments[postId]) else []
  }

  function CommentIds(cs: seq<Comment>): (ids: seq<string>)
    ensures |ids| == |cs| && forall i :: 0 <= i < |cs| ==> ids[i] == cs[i].id
  {
    if |cs| == 0 then [] else [cs[0].id] + CommentIds(cs[1..])
  }

  /**
   * The offline branch of `deletePost` as written: the thread is deleted
   * first, so the later `if (comments[postId])` is always false and the
   * comment votes are never removed.
   */
  function OfflineDeleteAsWritten(f: LocalFeed, postId: string): (g: LocalFeed)
    ensures g.comments == f.comments - {postId} && g.userVotes == WithoutRecordsFor(f.userVotes, [postId])
    ensures g.userCommentVotes == f.userCommentVotes
  {
    var comments := f.comments - {postId};
    var userVotes := WithoutRecordsFor(f.userVotes, [postId]);
    var userCommentVotes :=
      if postId in comments then WithoutRecordsFor(f.userCommentVotes, ThreadIds(comments, postId))
      else f.userCommentVotes;
    LocalFeed(comments, userVotes, userCommentVotes)
  }

  /** The offline branch of `deletePost` with the thread's comment ids read before the thread is deleted. */
  function OfflineDelete(f: LocalFeed, postId: string): (g: LocalFeed)
    ensures g.comments == f.comments - {postId}
    ensures g.userVotes == WithoutRecordsFor(f.userVotes, [postId])
    ensures postId in f.comments ==> g.userCommentVotes == WithoutRecordsFor(f.userCommentVotes, CommentIds(f.comments[postId]))
    ensures postId !in f.comments ==> g.userCommentVotes == f.userCommentVotes
  {
    var ids := if postId in f.comments then CommentIds(f.comments[postId]) else [];
    var userCommentVotes := if postId in f.comments then WithoutRecordsFor(f.userCommentVotes, ids) else f.userCommentVotes;
    LocalFeed(f.comments - {postId}, WithoutRecordsFor(f.userVotes, [postId]), userCommentVotes)
  }

  /** A vote on a comment of the deleted post survives the deletion as written, and not the corrected one. */
  lemma OfflineDeleteKeepsCommentVote()
    ensures var c := Comment("c", "a", "hi", 0, Counters(0, 0));
            var f := LocalFeed(map["p" := [c]], map[], map["u_c" := Up]);
            "u_c" in OfflineDeleteAsWritten(f, "p").userCommentVotes
            && "u_c" !in OfflineDelete(f, "p").userCommentVotes
  {
  }

  class FeedManager {
    /** The id of the user of this page (`myId`). */
    const myId: string
    /** The loaded posts, in display order once sorted. */
    var posts: seq<Post>
    /** Comment threads by post id. */
    var comments: map<string, seq<Comment>>
    /** This user's post votes, keyed `${userId}_${postId}`. */
    var userVotes: map<string, Direction>
    /** This user's comment votes, keyed `${userId}_${commentId}`. */
    var userCommentVotes: map<string, Direction>
    /** Posts per user per day (the `userPosts` node or its local copy). */
    var postCounts: map<string, map<string, int>>

    /**
     * The page's start: no posts yet; the comment threads, the two vote
     * dictionaries and the post counters are the saved local copies, an
     * empty object for each one that was never saved.
     */
    constructor (myId: string, savedComments: Option<map<string, seq<Comment>>>,
                 savedUserVotes: Option<map<string, Direction>>,
                 savedUserCommentVotes: Option<map<string, Direction>>,
                 savedPostCounts: Option<map<string, map<string, int>>>)
      ensures this.myId == myId && posts == []
      ensures comments == (if savedComments.Some? then savedComments.value else map[])
      ensures userVotes == (if savedUserVotes.Some? then savedUserVotes.value else map[])
      ensures userCommentVotes == (if savedUserCommentVotes.Some? then savedUserCommentVotes.value else map[])
      ensures postCounts == (if savedPostCounts.Some? then savedPostCounts.value else map[])
    {
      this.myId := myId;
      posts := [];
      comments := if savedComments.Some? then savedComments.value else map[];
      userVotes := if savedUserVotes.Some? then savedUserVotes.value else map[];
      userCommentVotes := if savedUserCommentVotes.Some? then savedUserCommentVotes.value else map[];
      postCounts := if savedPostCounts.Some? then savedPostCounts.value else map[];
    }

    /**
     * `vote` on a post. The counters and the record change at once; a
     * failed database write restores the record but, as written, leaves the
     * optimistic counters. The result is whether the vote went through.
     */
    method Vote(postId: string, click: Direction, userId: string, backend: Backend) returns (ok: bool)
      modifies this
      ensures FindIndex(old(posts), PostId, postId).None? ==> !ok && posts == old(posts) && userVotes == old(userVotes)
      ensures FindIndex(old(posts), PostId, postId).Some? ==>
        var i := FindIndex(old(posts), PostId, postId).value;
        var key := VoteKey(userId, postId);
        var o := VoteStep(old(posts)[i].votes, UserVote(old(userVotes), userId, postId), click);
        && posts == old(posts)[i := old(posts)[i].(votes := o.counters)]
        && userVotes == (if backend == Online(false) then old(userVotes) else Record(old(userVotes), key, o.record))
        && ok == Synced(backend)
      ensures comments == old(comments) && userCommentVotes == old(userCommentVotes) && postCounts == old(postCounts)
    {
      var found := FindIndex(posts, PostId, postId);
      if found.None? {
        return false;
      }
      var i := found.value;
      var post := posts[i];
      var key := VoteKey(userId, postId);
      var previous := UserVote(userVotes, userId, postId);
      var o := VoteStep(post.votes, previous, click);
      posts := posts[i := post.(votes := o.counters)];
      userVotes := Record(userVotes, key, o.record);
      match backend {
        case Online(writeOk) =>
          if writeOk {
            ok := true;
          } else {
            var current := posts[i].votes;
            var restored := Counters(Rollback(current.up, o.counters.up), Rollback(current.down, o.counters.down));
            assert restored == o.counters;
            posts := posts[i := posts[i].(votes := restored)];
            userVotes := Record(userVotes, key, previous);
            RecordRestores(old(userVotes), key, o.record);
            ok := false;
          }
        case Offline =>
          ok := true;
        case RefsMissing =>
          ok := false;
      }
    }

    /**
     * `voteComment`. The thread is sorted first (through `getPostComments`),
     * then the comment is looked up in it. When the thread is the
     * database's object keyed by comment id (`keyed`) rather than an array,
     * the sorting and the new counters apply to copies, and `comments`
     * keeps what it held.
     */
    method VoteComment(postId: string, commentId: string, click: Direction, userId: string, backend: Backend,
                       keyed: bool) returns (r: CommentVoteResult)
      modifies this
      ensures postId !in old(comments) ==> r == NotVoted && comments == old(comments) && userCommentVotes == old(userCommentVotes)
      ensures postId in old(comments) ==>
        var thread := Ranking.Sort(old(comments)[postId], CommentRank);
        match FindIndex(thread, CommentId, commentId)
        case None =>
          && r == NotVoted && userCommentVotes == old(userCommentVotes)
          && comments == (if keyed then old(comments) else old(comments)[postId := thread])
        case Some(j) =>
          var key := VoteKey(userId, commentId);
          var o := VoteStep(thread[j].votes, UserVote(old(userCommentVotes), userId, commentId), click);
          && comments == (if keyed then old(comments) else old(comments)[postId := thread[j := thread[j].(votes := o.counters)]])
          && userCommentVotes == (if backend == Online(false) then old(userCommentVotes) else Record(old(userCommentVotes), key, o.record))
          && r == CommentVoteOutcome(backend)
      ensures posts == old(posts) && userVotes == old(userVotes) && postCounts == old(postCounts)
    {
      if postId !in comments {
        return NotVoted;
      }
      var thread := GetPostComments(postId, keyed);
      var found := FindIndex(thread, CommentId, commentId);
      if found.None? {
        return NotVoted;
      }
      r := VoteInThread(postId, thread, found.value, commentId, click, userId, backend, keyed);
    }

    /**
     * The part of `voteComment` after the comment has been found at index
     * `j` of the sorted thread: the counters and the record change at once,
     * a failed database write restores the record, and offline the call to
     * the missing `saveComments` throws after the changes were made.
     */
    method VoteInThread(postId: string, thread: seq<Comment>, j: nat, commentId: string, click: Direction,
                        userId: string, backend: Backend, keyed: bool) returns (r: CommentVoteResult)
      requires postId in comments && (!keyed ==> comments[postId] == thread) && j < |thread|
      modifies this
      ensures
        var key := VoteKey(userId, commentId);
        var o := VoteStep(thread[j].votes, UserVote(old(userCommentVotes), userId, commentId), click);
        && comments == (if keyed then old(comments) else old(comments)[postId := thread[j := thread[j].(votes := o.counters)]])
        && userCommentVotes == (if backend == Online(false) then old(userCommentVotes) else Record(old(userCommentVotes), key, o.record))
        && r == CommentVoteOutcome(backend)
      ensures posts == old(posts) && userVotes == old(userVotes) && postCounts == old(postCounts)
    {
      var comment := thread[j];
      var key := VoteKey(userId, commentId);
      var previous := UserVote(userCommentVotes, userId, commentId);
      var o := VoteStep(comment.votes, previous, click);
      var updated := thread[j := comment.(votes := o.counters)];
      if !keyed {
        comments := comments[postId := updated];
      }
      userCommentVotes := Record(userCommentVotes, key, o.record);
      match backend {
        case Online(writeOk) =>
          if writeOk {
            r := Voted;
          } else {
            var current := updated[j].votes;
            var restored := Counters(Rollback(current.up, o.counters.up), Rollback(current.down, o.counters.down));
            assert updated[j := updated[j].(votes := restored)] == updated;
            if !keyed {
              comments := comments[postId := updated[j := updated[j].(votes := restored)]];
            }
            userCommentVotes := Record(userCommentVotes, key, previous);
            RecordRestores(old(userCommentVotes), key, o.record);
            r := NotVoted;
          }
        case Offline =>
          r := Threw;
        case RefsMissing =>
          r := NotVoted;
      }
    }

    /** `getUserVote`. */
    function GetUserVote(postId: string, userId: string, isComment: bool, commentId: string): (r: Option<Direction>)
      reads this
      ensures !isComment ==> r == UserVote(userVotes, userId, postId)
      ensures isComment ==> r == UserVote(userCommentVotes, userId, commentId)
    {
      if isComment then UserVote(userCommentVotes, userId, commentId) else UserVote(userVotes, userId, postId)
    }

    /** `getSortedPosts`: sorts `posts` in place, highest score first, then newest, and returns it. */
    method GetSortedPosts() returns (sorted: seq<Post>)
      modifies this
      ensures sorted == posts
      ensures multiset(posts) == multiset(old(posts)) && Ranking.Ordered(posts, PostRank)
      ensures posts == Ranking.Sort(old(posts), PostRank)
      ensures comments == old(comments) && userVotes == old(userVotes)
      ensures userCommentVotes == old(userCommentVotes) && postCounts == old(postCounts)
    {
      posts := Ranking.Sort(posts, PostRank);
      sorted := posts;
    }

    /**
     * `getPostComments`: the thread sorted highest score first, then oldest;
     * empty when there is none. An array is sorted in place; the database's
     * keyed object is copied into a new array, which is sorted instead.
     */
    method GetPostComments(postId: string, keyed: bool) returns (thread: seq<Comment>)
      modifies this
      ensures postId !in old(comments) ==> thread == [] && comments == old(comments)
      ensures postId in old(comments) ==>
        && multiset(thread) == multiset(old(comments)[postId]) && Ranking.Ordered(thread, CommentRank)
        && thread == Ranking.Sort(old(comments)[postId], CommentRank)
        && comments == (if keyed then old(comments) else old(comments)[postId := thread])
      ensures posts == old(posts) && userVotes == old(userVotes)
      ensures userCommentVotes == old(userCommentVotes) && postCounts == old(postCounts)
    {
      if postId !in comments {
        return [];
      }
      thread := Ranking.Sort(comments[postId], CommentRank);
      if !keyed {
        comments := comments[postId := thread];
      }
    }

    /** `canUserPost`. */
    predicate CanUserPost(userId: string, today: string)
      reads this
    {
      CanPost(postCounts, userId, today)
    }

    /**
     * `createPost`, with the link check's verdict, the clock, the day's
     * name and the stored avatar choice passed in. Offline, the post is
     * put first with the time as its id; online, the optimistic copy is
     * taken out again whether the write succeeds or fails (the database
     * listener adds the stored post). A successful post counts once
     * towards the day's quota.
     */
    method CreatePost(title: string, content: string, authorId: string, blocked: bool,
                      now: nat, today: string, customAvatar: Option<string>, backend: Backend)
      returns (result: CreateResult)
      modifies this
      ensures blocked ==> result == Refused(Blocked)
      ensures !blocked && backend != RefsMissing && !CanPost(old(postCounts), authorId, today) ==> result == Refused(QuotaReached)
      ensures result.Refused? ==> posts == old(posts) && postCounts == old(postCounts)
      ensures result.Created? ==>
        && !blocked && CanPost(old(postCounts), authorId, today)
        && postCounts == RecordPost(old(postCounts), authorId, today)
        && PostCount(postCounts, authorId, today) == PostCount(old(postCounts), authorId, today) + 1
      ensures result.Created? <==> !blocked && CanPost(old(postCounts), authorId, today) && (backend == Offline || backend == Online(true))
      ensures result.Created? && backend == Offline ==>
        posts == [Post(Identity.IntString(now), authorId, Trim(title), Trim(content), now, Counters(0, 0),
                       Identity.AvatarUrl(authorId, customAvatar))] + old(posts)
      ensures backend != Offline ==> posts == old(posts)
      ensures comments == old(comments) && userVotes == old(userVotes) && userCommentVotes == old(userCommentVotes)
    {
      if blocked {
        return Refused(Blocked);
      }
      if backend == RefsMissing {
        return Refused(NotInitialized);
      }
      if !CanUserPost(authorId, today) {
        return Refused(QuotaReached);
      }
      var avatar := Identity.AvatarUrl(authorId, customAvatar);
      if backend == Offline {
        PublishLocally(Post(Identity.IntString(now), authorId, Trim(title), Trim(content), now, Counters(0, 0), avatar),
          authorId, today);
        return Created;
      }
      result := PublishOnline(Post("temp_" + Identity.IntString(now), authorId, Trim(title), Trim(content), now, Counters(0, 0), avatar),
        authorId, today, backend.writeOk);
    }

    /** The offline branch of `createPost`: the post goes first and counts towards the day's quota. */
    method PublishLocally(post: Post, authorId: string, today: string)
      modifies this
      ensures posts == [post] + old(posts) && postCounts == RecordPost(old(postCounts), authorId, today)
      ensures comments == old(comments) && userVotes == old(userVotes) && userCommentVotes == old(userCommentVotes)
    {
      posts := [post] + posts;
      postCounts := RecordPost(postCounts, authorId, today);
    }

    /**
     * The online branch of `createPost`: the optimistic copy is shown and
     * taken out again; a successful write counts towards the day's quota.
     */
    method PublishOnline(tempPost: Post, authorId: string, today: string, writeOk: bool) returns (result: CreateResult)
      modifies this
      ensures posts == old(posts)
      ensures writeOk ==> result == Created && postCounts == RecordPost(old(postCounts), authorId, today)
      ensures !writeOk ==> result == Refused(WriteFailed) && postCounts == old(postCounts)
      ensures comments == old(comments) && userVotes == old(userVotes) && userCommentVotes == old(userCommentVotes)
    {
      posts := [tempPost] + posts;
      posts := posts[1..];
      if writeOk {
        postCounts := RecordPost(postCounts, authorId, today);
        result := Created;
      } else {
        result := Refused(WriteFailed);
      }
    }

    /** `loadLocalPosts`: a saved list replaces `posts`, without the heavily downvoted ones. */
    method LoadLocalPosts(saved: Option<seq<Post>>)
      modifies this
      ensures saved.None? ==> posts == old(posts)
      ensures saved.Some? ==> posts == VisiblePosts(saved.value)
      ensures comments == old(comments) && userVotes == old(userVotes)
      ensures userCommentVotes == old(userCommentVotes) && postCounts == old(postCounts)
    {
      if saved.Some? {
        posts := VisiblePosts(saved.value);
      }
    }

    /** The initial database load: newest first, then filtered. */
    method LoadPosts(snapshot: Option<seq<Post>>)
      modifies this
      ensures snapshot.None? ==> posts == []
      ensures snapshot.Some? ==> posts == VisiblePosts(Ranking.Sort(snapshot.value, RecencyRank))
      ensures Ranking.Ordered(posts, RecencyRank)
      ensures forall i :: 0 <= i < |posts| ==> Visible(posts[i])
      ensures comments == old(comments) && userVotes == old(userVotes)
      ensures userCommentVotes == old(userCommentVotes) && postCounts == old(postCounts)
    {
      if snapshot.None? {
        posts := [];
      } else {
        var sorted := Ranking.Sort(snapshot.value, RecencyRank);
        VisibleKeepsOrder(sorted, RecencyRank);
        posts := VisiblePosts(sorted);
      }
    }

    /**
     * `deletePost`, with the confirmation dialog's answer passed in. Only the
     * author may delete. The post leaves `posts` at once; when the database
     * is not in use (not ready, or its references missing) the local copies
     * are cleaned up as written, which keeps the votes on the post's comments.
     */
    method DeletePost(postId: string, authorId: string, confirmed: bool, backend: Backend) returns (result: DeleteResult)
      modifies this
      ensures authorId != myId ==> result == NotAuthor
      ensures authorId == myId && !confirmed ==> result == Cancelled
      ensures result == NotAuthor || result == Cancelled ==>
        posts == old(posts) && comments == old(comments) && userVotes == old(userVotes) && userCommentVotes == old(userCommentVotes)
      ensures authorId == myId && confirmed ==> posts == RemovePost(old(posts), postId)
      ensures authorId == myId && confirmed && !backend.Online? ==>
        result == Deleted
        && LocalFeed(comments, userVotes, userCommentVotes)
           == OfflineDeleteAsWritten(LocalFeed(old(comments), old(userVotes), old(userCommentVotes)), postId)
      ensures authorId == myId && confirmed && backend.Online? ==>
        comments == old(comments) && userVotes == old(userVotes) && userCommentVotes == old(userCommentVotes)
        && result == (if backend.writeOk then Deleted else DeleteFailed)
      ensures postCounts == old(postCounts)
    {
      if authorId != myId {
        return NotAuthor;
      }
      if !confirmed {
        return Cancelled;
      }
      posts := RemovePost(posts, postId);
      if backend.Online? {
        result := if backend.writeOk then Deleted else DeleteFailed;
      } else {
        DeleteLocally(postId);
        result := Deleted;
      }
    }

    /**
     * The local branch of `deletePost` as written: the thread and the
     * records on the post go; the records on its comments stay.
     */
    method DeleteLocally(postId: string)
      modifies this
      ensures LocalFeed(comments, userVotes, userCommentVotes)
        == OfflineDeleteAsWritten(LocalFeed(old(comments), old(userVotes), old(userCommentVotes)), postId)
      ensures posts == old(posts) && postCounts == old(postCounts)
    {
      var after := OfflineDeleteAsWritten(LocalFeed(comments, userVotes, userCommentVotes), postId);
      comments := after.comments;
      userVotes := after.userVotes;
      userCommentVotes := after.userCommentVotes;
    }

    /** The local branch of `deletePost` corrected: the records on the post's comments go as well. */
    method DeleteLocallyCorrected(postId: string)
      modifies this
      ensures LocalFeed(comments, userVotes, userCommentVotes)
        == OfflineDelete(LocalFeed(old(comments), old(userVotes), old(userCommentVotes)), postId)
      ensures posts == old(posts) && postCounts == old(postCounts)
    {
      var after := OfflineDelete(LocalFeed(comments, userVotes, userCommentVotes), postId);
      comments := after.comments;
      userVotes := after.userVotes;
      userCommentVotes := after.userCommentVotes;
    }
  }
}
