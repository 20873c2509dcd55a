/**
 * Sequences of engine operations and what they leave behind.
 *
 * Each method runs a short script against one engine and states the outcome
 * the engine's design promises for it, for every starting state that
 * satisfies the engine invariant.
 */
module Scenarios {
  import opened Types
  import opened Seqs
  import opened Engine

  /** An up vote followed by a down vote restores the tally and the karma. */
  method VoteRoundTrip(e: RedditEngine, post: Post)
    requires e.Valid() && post in e.allPosts
    modifies post`votes, post.author`karma
    ensures e.Valid()
    ensures post.votes == old(post.votes) && post.author.karma == old(post.author.karma)
  {
    e.Vote(post, true);
    e.Vote(post, false);
  }

  /** `n` up votes, one after the other, move the tally and the author's karma
      by exactly `n`: the serial form of many voters voting at once. */
  method VoteRepeatedly(e: RedditEngine, post: Post, n: nat)
    requires e.Valid() && post in e.allPosts
    modifies post`votes, post.author`karma
    ensures e.Valid()
    ensures post.votes == old(post.votes) + n
    ensures post.author.karma == old(post.author.karma) + n
  {
    var i := 0;
    while i < n
      invariant 0 <= i <= n
      invariant e.Valid() && post in e.allPosts
      invariant post.votes == old(post.votes) + i
      invariant post.author.karma == old(post.author.karma) + i
    {
      e.Vote(post, true);
      i := i + 1;
    }
  }

  /** A post found by its identity can be voted on, and the vote lands on it. */
  method LookupThenVote(e: RedditEngine, id: int) returns (post: Post?)
    requires e.Valid()
    modifies e.allPosts`votes, (set p | p in e.allPosts :: p.author)`karma
    ensures e.Valid()
    ensures post == null <==> !old(e.PostIdTaken(id))
    ensures post != null ==> post in old(e.allPosts) && post.id == id
    ensures post != null ==> post.votes == old(post.votes) + 1 && post.author.karma == old(post.author.karma) + 1
  {
    post := e.GetPostByID(id);
    if post != null {
      e.Vote(post, true);
    }
  }

  /** A post created in a stored subreddit is the last post of its feed, and
      its identity is the feed's length. */
  method CreateThenFeed(e: RedditEngine, user: User, sr: SubReddit, title: string, content: string)
      returns (post: Post, feed: seq<Post>)
    requires e.Valid() && e.IsLiveSubReddit(sr)
    modifies sr`posts, e`allPosts
    ensures e.Valid()
    ensures feed == old(sr.posts) + [post] && feed[|feed| - 1] == post && post.id == |feed|
    ensures post.author == user && post.title == title && post.content == content
  {
    post := e.CreatePost(user, sr, title, content);
    feed := e.GetFeed(sr);
  }

  /** A second join of the same user fails and leaves the members as the first
      join made them. */
  method JoinTwice(e: RedditEngine, user: User, sr: SubReddit) returns (first: Outcome, second: Outcome)
    requires e.Valid() && user.id !in sr.members
    modifies sr`members
    ensures e.Valid()
    ensures first == Pass && second == Fail(AlreadyMember)
    ensures sr.members == old(sr.members)[user.id := user]
  {
    first := e.JoinSubReddit(user, sr);
    second := e.JoinSubReddit(user, sr);
  }

  /** Join, leave and join again all succeed and the user ends up a member. */
  method JoinLeaveJoin(e: RedditEngine, user: User, sr: SubReddit) returns (r1: Outcome, r2: Outcome, r3: Outcome)
    requires e.Valid() && user.id !in sr.members
    modifies sr`members
    ensures e.Valid()
    ensures r1 == Pass && r2 == Pass && r3 == Pass
    ensures sr.members == old(sr.members)[user.id := user]
  {
    r1, r2 := JoinThenLeave(e, user, sr);
    r3 := e.JoinSubReddit(user, sr);
  }

  /** A join followed by a leave restores the membership. */
  method JoinThenLeave(e: RedditEngine, user: User, sr: SubReddit) returns (joined: Outcome, left: Outcome)
    requires e.Valid() && user.id !in sr.members
    modifies sr`members
    ensures e.Valid()
    ensures joined == Pass && left == Pass && sr.members == old(sr.members)
  {
    joined := e.JoinSubReddit(user, sr);
    left := e.LeaveSubReddit(user, sr);
  }

  /** A message shows up once in its recipient's inbox and not in the inbox of
      a sender who is someone else. */
  method MessageDelivered(e: RedditEngine, a: User, b: User)
      returns (msg: Message, inboxA: seq<Message>, inboxB: seq<Message>)
    requires e.Valid() && a != b
    modifies e`messages
    ensures e.Valid()
    ensures msg.from == a && msg.to == b && msg.content == "hi"
    ensures multiset(inboxB)[msg] == 1 && msg !in inboxA
  {
    msg := e.SendMessage(a, b, "hi");
    inboxA := e.GetMessages(a);
    inboxB := e.GetMessages(b);
    assert e.messages[msg.id] == msg;
    DistinctOnce(inboxB, msg);
  }

  /** `UserExists` answers true exactly when `GetUserByUsername` finds a user. */
  method ExistsMatchesLookup(e: RedditEngine, username: string) returns (found: bool, user: User?)
    requires e.UsersKeyed()
    ensures found <==> user != null
    ensures user != null ==> user.username == username
  {
    found := e.UserExists(username);
    user := e.GetUserByUsername(username);
  }
}
