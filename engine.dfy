/**
 * The in-memory store and its operations.
 *
 * `RedditEngine` owns three maps keyed by identity: users, subreddits and
 * messages. Posts live inside subreddits and comments inside posts. The Go
 * engine serialises every operation with one mutex, so each operation here
 * is one atomic step.
 *
 * The lookups walk a map with Go's `range`, whose order is unspecified. They
 * are loops that take the remaining keys in an arbitrary order (`:|`). Their
 * postconditions therefore say what holds for every order.
 */
module Engine {
  import opened Types
  import opened Seqs
  import opened Karma

  datatype MembershipError = AlreadyMember | NotMember

  /** The `error` result of a membership change: `nil` or one of two errors. */
  datatype Outcome = Pass | Fail(error: MembershipError)

  /** The keys of `m` are exactly 1, 2, ..., |m|: no gaps and nothing else. */
  ghost predicate KeysAreOneTo<V>(m: map<int, V>) {
    forall k :: k in m <==> 1 <= k <= |m|
  }

  /** One `(author, votes)` entry per post, in the order of `posts`. */
  ghost function Tally(posts: seq<Post>): seq<(User, int)>
    reads posts`votes
  {
    if posts == [] then []
    else Tally(posts[..|posts| - 1]) + [(posts[|posts| - 1].author, posts[|posts| - 1].votes)]
  }

  lemma {:induction false} TallyAt(posts: seq<Post>, i: nat)
    requires i < |posts|
    ensures |Tally(posts)| == |posts| && Tally(posts)[i] == (posts[i].author, posts[i].votes)
  {
    TallyLength(posts);
    if i < |posts| - 1 {
      TallyAt(posts[..|posts| - 1], i);
    }
  }

  lemma {:induction false} TallyLength(posts: seq<Post>)
    ensures |Tally(posts)| == |posts|
  {
    if posts != [] {
      TallyLength(posts[..|posts| - 1]);
    }
  }

  lemma {:induction false} TallyConcat(a: seq<Post>, b: seq<Post>)
    ensures Tally(a + b) == Tally(a) + Tally(b)
  {
    if b == [] {
      assert a + b == a;
    } else {
      assert (a + b)[..|a + b| - 1] == a + b[..|b| - 1];
      TallyConcat(a, b[..|b| - 1]);
    }
  }

  /** Adding the next key keeps the keys 1..n with no gaps. */
  lemma KeysAreOneToInsert<V>(m: map<int, V>, v: V)
    requires KeysAreOneTo(m)
    ensures KeysAreOneTo(m[|m| + 1 := v]) && |m[|m| + 1 := v]| == |m| + 1
  {
    // Dafny finds this proof unaided; the steps below spell it out.
    assert |m| + 1 !in m;
  }

  class RedditEngine {
    var users: map<int, User>
    var subReddits: map<int, SubReddit>
    var messages: map<int, Message>
    /** Every post of every subreddit: the feeds concatenated in identity order. */
    ghost var allPosts: seq<Post>

    /** `sr` is the subreddit the engine stores under `sr`'s identity. */
    ghost predicate IsLiveSubReddit(sr: SubReddit)
      reads `subReddits
    {
      sr.id in subReddits && subReddits[sr.id] == sr
    }

    /** Users are keyed 1..n and each user's identity is its key. */
    ghost predicate UsersKeyed()
      reads `users
    {
      KeysAreOneTo(users) && forall k :: k in users ==> users[k].id == k
    }

    /** Subreddits are keyed 1..n and each subreddit's identity is its key. */
    ghost predicate SubRedditsKeyed()
      reads `subReddits
    {
      KeysAreOneTo(subReddits) && forall k :: k in subReddits ==> subReddits[k].id == k
    }

    /** Messages are keyed 1..n and each message's identity is its key. */
    ghost predicate MessagesKeyed()
      reads `messages
    {
      KeysAreOneTo(messages) && forall k :: k in messages ==> messages[k].id == k
    }

    /** The posts of each subreddit, by subreddit identity. */
    ghost function Feeds(): map<int, seq<Post>>
      reads `subReddits, subReddits.Values`posts
    {
      map k | k in subReddits :: subReddits[k].posts
    }

    /** `allPosts` is the concatenation of the feeds in identity order. */
    ghost predicate AllPostsGathered()
      reads `allPosts, `subReddits, subReddits.Values`posts
    {
      allPosts == Gather(Feeds(), IdOrder(|subReddits|))
    }

    /** Every subreddit numbers its posts 1..n. */
    ghost predicate FeedsNumbered()
      reads `subReddits, subReddits.Values`posts
    {
      forall k :: k in subReddits ==> PostsNumbered(subReddits[k].posts)
    }

    /** Every subreddit keys its members by their own identity. */
    ghost predicate MembersKeyed()
      reads `subReddits, subReddits.Values`members
    {
      forall k, id :: k in subReddits && id in subReddits[k].members ==> subReddits[k].members[id].id == id
    }

    /** No post is held twice and every post numbers its comments 1..n. */
    ghost predicate PostsWellFormed()
      reads `allPosts, allPosts`comments
    {
      Distinct(allPosts) && forall p :: p in allPosts ==> CommentsNumbered(p.comments)
    }

    /** Each user's karma is the sum of the votes of the posts that user wrote. */
    ghost predicate KarmaMatchesVotes()
      reads `users, users.Values`karma, `allPosts, allPosts`votes
    {
      forall k :: k in users ==> users[k].karma == KarmaOf(users[k], Tally(allPosts))
    }

    ghost predicate Valid()
      reads this, users.Values`karma, subReddits.Values`posts, subReddits.Values`members
      reads allPosts`votes, allPosts`comments
    {
      && UsersKeyed() && SubRedditsKeyed() && MessagesKeyed()
      && AllPostsGathered() && FeedsNumbered() && MembersKeyed()
      && PostsWellFormed() && KarmaMatchesVotes()
    }

    /** Some stored user has exactly this name (case-sensitive). */
    ghost predicate UsernameTaken(username: string)
      reads `users
    {
      exists k :: k in users && users[k].username == username
    }

    /** Some stored subreddit has exactly this name (case-sensitive). */
    ghost predicate SubRedditNameTaken(name: string)
      reads `subReddits
    {
      exists k :: k in subReddits && subReddits[k].name == name
    }

    /** Some post of some subreddit has this (subreddit-scoped) identity. */
    ghost predicate PostIdTaken(id: int)
      reads `subReddits, subReddits.Values`posts
    {
      exists k, i :: k in subReddits && 0 <= i < |subReddits[k].posts| && subReddits[k].posts[i].id == id
    }

    /** `NewRedditEngine`: three empty collections. */
    constructor ()
      ensures Valid()
      ensures users == map[] && subReddits == map[] && messages == map[]
    {
      users := map[];
      subReddits := map[];
      messages := map[];
      allPosts := [];
    }

    method RegisterAccount(username: string) returns (user: User)
      requires Valid()
      modifies `users
      ensures Valid()
      ensures fresh(user) && user.id == old(|users|) + 1
      ensures user.username == username && user.karma == 0
      ensures users == old(users)[user.id := user] && |users| == old(|users|) + 1
    {
      user := new User(|users| + 1, username);
      users := users[user.id := user];
      KeysAreOneToInsert(old(users), user);
      KarmaAfterRegister(this, user);
      SubRedditsFrame(this);
      MessagesKeyedFrame(this);
      PostsWellFormedFrame(this);
    }

    method CreateSubReddit(name: string) returns (sr: SubReddit)
      requires Valid()
      modifies `subReddits
      ensures Valid()
      ensures fresh(sr) && sr.id == old(|subReddits|) + 1 && sr.name == name
      ensures sr.members == map[] && sr.posts == []
      ensures subReddits == old(subReddits)[sr.id := sr] && |subReddits| == old(|subReddits|) + 1
    {
      sr := new SubReddit(|subReddits| + 1, name);
      subReddits := subReddits[sr.id := sr];
      KeysAreOneToInsert(old(subReddits), sr);
      SubRedditAdded(this, sr);
      UsersKeyedFrame(this);
      MessagesKeyedFrame(this);
      PostsWellFormedFrame(this);
      KarmaFrame(this);
    }

    /** A subreddit the engine does not hold gets the post too; it just does
        not join the engine's posts. */
    method CreatePost(user: User, sr: SubReddit, title: string, content: string) returns (post: Post)
      requires Valid()
      modifies sr`posts, `allPosts
      ensures Valid()
      ensures fresh(post) && post.id == old(|sr.posts|) + 1
      ensures post.title == title && post.content == content && post.author == user
      ensures post.votes == 0 && post.comments == []
      ensures sr.posts == old(sr.posts) + [post]
      ensures multiset(allPosts) == old(multiset(allPosts)) + if IsLiveSubReddit(sr) then multiset{post} else multiset{}
    {
      post := new Post(|sr.posts| + 1, title, content, user);
      sr.posts := sr.posts + [post];
      ghost var held := IsLiveSubReddit(sr);
      if held {
        ghost var feeds := Feeds();
        allPosts := Gather(feeds, IdOrder(|subReddits|));
        assert feeds == Feeds();
        ghost var front, back := PostPlaced(this, sr.id, post);
        PostsWellFormedAfterInsert(this, post, front, back);
        KarmaAfterInsert(this, post, front, back);
        FeedAppended(this, sr.id, post);
        SubRedditsKeyedFrame(this);
        MembersKeyedFrame(this);
      } else {
        assert forall k :: k in subReddits ==> subReddits[k].posts == old(subReddits[k].posts);
        SubRedditsFrame(this);
        PostsWellFormedFrame(this);
        KarmaFrame(this);
      }
      UsersKeyedFrame(this);
      MessagesKeyedFrame(this);
    }

    /** A post the engine does not hold gets the comment too. */
    method CreateComment(user: User, post: Post, content: string) returns (comment: Comment)
      requires Valid()
      modifies post`comments
      ensures Valid()
      ensures fresh(comment) && comment.id == old(|post.comments|) + 1
      ensures comment.content == content && comment.author == user
      ensures comment.votes == 0 && comment.replies == []
      ensures post.comments == old(post.comments) + [comment]
    {
      comment := new Comment(|post.comments| + 1, content, user);
      post.comments := post.comments + [comment];
      if i :| 0 <= i < |allPosts| && allPosts[i] == post {
        CommentAdded(this, i, comment);
      } else {
        PostsWellFormedFrame(this);
      }
      UsersKeyedFrame(this);
      SubRedditsFrame(this);
      MessagesKeyedFrame(this);
      KarmaFrame(this);
    }

    method Vote(post: Post, upvote: bool)
      requires Valid() && post in allPosts
      modifies post`votes, post.author`karma
      ensures Valid()
      ensures post.votes == old(post.votes) + (if upvote then 1 else -1)
      ensures post.author.karma == old(post.author.karma) + (if upvote then 1 else -1)
    {
      ghost var i :| 0 <= i < |allPosts| && allPosts[i] == post;
      if upvote {
        post.votes := post.votes + 1;
        post.author.karma := post.author.karma + 1;
      } else {
        post.votes := post.votes - 1;
        post.author.karma := post.author.karma - 1;
      }
      KarmaAfterVote(this, i, if upvote then 1 else -1);
      UsersKeyedFrame(this);
      SubRedditsFrame(this);
      MessagesKeyedFrame(this);
      PostsWellFormedFrame(this);
    }

    /** The posts of `sr` in creation order; for a subreddit the engine holds,
        their identities are 1..n. */
    method GetFeed(sr: SubReddit) returns (feed: seq<Post>)
      ensures feed == sr.posts
      ensures Valid() && IsLiveSubReddit(sr) ==> forall i :: 0 <= i < |feed| ==> feed[i].id == i + 1
    {
      feed := sr.posts;
    }

    method SendMessage(from: User, to: User, content: string) returns (msg: Message)
      requires Valid()
      modifies `messages
      ensures Valid()
      ensures fresh(msg) && msg.id == old(|messages|) + 1
      ensures msg.from == from && msg.to == to && msg.content == content
      ensures messages == old(messages)[msg.id := msg] && |messages| == old(|messages|) + 1
    {
      msg := new Message(|messages| + 1, from, to, content);
      messages := messages[msg.id := msg];
      KeysAreOneToInsert(old(messages), msg);
      UsersKeyedFrame(this);
      SubRedditsFrame(this);
      PostsWellFormedFrame(this);
      KarmaFrame(this);
    }

    /** Every stored message addressed to `user` (compared by reference), each
        once, in no particular order. */
    method GetMessages(user: User) returns (inbox: seq<Message>)
      requires MessagesKeyed()
      ensures forall k :: k in messages ==> (messages[k] in inbox <==> messages[k].to == user)
      ensures forall m :: m in inbox ==> m in messages.Values && m.to == user
      ensures Distinct(inbox)
    {
      inbox := [];
      var remaining: set<int> := messages.Keys;
      ghost var todo := IdOrder(|messages|);
      IdOrderEnumerates(|messages|, messages.Keys);
      while |remaining| > 0
        invariant remaining <= messages.Keys
        invariant IsEnumeration(todo, remaining) && |todo| == |remaining|
        invariant forall k :: k in messages && k !in remaining ==> (messages[k] in inbox <==> messages[k].to == user)
        invariant forall m :: m in inbox ==> m.id in messages && messages[m.id] == m && m.id !in remaining && m.to == user
        invariant Distinct(inbox)
        decreases |remaining|
      {
        var key;
        key, todo := Pick(remaining, todo);
        var msg := messages[key];
        if msg.to == user {
          inbox := inbox + [msg];
        }
        remaining := remaining - {key};
      }
    }

    method GetSubRedditByName(name: string) returns (sr: SubReddit?)
      requires SubRedditsKeyed()
      ensures sr == null <==> !SubRedditNameTaken(name)
      ensures sr != null ==> sr in subReddits.Values && sr.name == name
    {
      var remaining: set<int> := subReddits.Keys;
      ghost var todo := IdOrder(|subReddits|);
      IdOrderEnumerates(|subReddits|, subReddits.Keys);
      while |remaining| > 0
        invariant remaining <= subReddits.Keys
        invariant IsEnumeration(todo, remaining) && |todo| == |remaining|
        invariant forall k :: k in subReddits && k !in remaining ==> subReddits[k].name != name
        decreases |remaining|
      {
        var key;
        key, todo := Pick(remaining, todo);
        if subReddits[key].name == name {
          return subReddits[key];
        }
        remaining := remaining - {key};
      }
      return null;
    }

    method GetUserByUsername(username: string) returns (user: User?)
      requires UsersKeyed()
      ensures user == null <==> !UsernameTaken(username)
      ensures user != null ==> user in users.Values && user.username == username
    {
      var remaining: set<int> := users.Keys;
      ghost var todo := IdOrder(|users|);
      IdOrderEnumerates(|users|, users.Keys);
      while |remaining| > 0
        invariant remaining <= users.Keys
        invariant IsEnumeration(todo, remaining) && |todo| == |remaining|
        invariant forall k :: k in users && k !in remaining ==> users[k].username != username
        decreases |remaining|
      {
        var key;
        key, todo := Pick(remaining, todo);
        if users[key].username == username {
          return users[key];
        }
        remaining := remaining - {key};
      }
      return null;
    }

    /** The first post with identity `id` in the feed of some subreddit, or
        null when no subreddit has one. Which subreddit is unspecified. */
    method GetPostByID(id: int) returns (post: Post?)
      requires SubRedditsKeyed()
      ensures post == null <==> !PostIdTaken(id)
      ensures post != null ==> post.id == id && exists k, i ::
        && k in subReddits && 0 <= i < |subReddits[k].posts| && subReddits[k].posts[i] == post
        && forall j :: 0 <= j < i ==> subReddits[k].posts[j].id != id
      ensures post != null && AllPostsGathered() ==> post in allPosts
    {
      var remaining: set<int> := subReddits.Keys;
      ghost var todo := IdOrder(|subReddits|);
      IdOrderEnumerates(|subReddits|, subReddits.Keys);
      while |remaining| > 0
        invariant remaining <= subReddits.Keys
        invariant IsEnumeration(todo, remaining) && |todo| == |remaining|
        invariant forall k, i :: k in subReddits && k !in remaining && 0 <= i < |subReddits[k].posts| ==>
          subReddits[k].posts[i].id != id
        decreases |remaining|
      {
        var key;
        key, todo := Pick(remaining, todo);
        var posts := subReddits[key].posts;
        var i := 0;
        while i < |posts|
          invariant 0 <= i <= |posts|
          invariant forall j :: 0 <= j < i ==> posts[j].id != id
        {
          if posts[i].id == id {
            HeldPostGathered(key, i);
            return posts[i];
          }
          i := i + 1;
        }
        remaining := remaining - {key};
      }
      return null;
    }

    /** The feeds of all subreddits, each as one contiguous block in creation
        order, the blocks in the (unspecified) order of the map walk. */
    method GetAllPosts() returns (all: seq<Post>, ghost order: seq<int>)
      requires SubRedditsKeyed()
      ensures IsEnumeration(order, subReddits.Keys) && all == Gather(Feeds(), order)
      ensures AllPostsGathered() ==> multiset(all) == multiset(allPosts)
      ensures |all| == TotalLength(Feeds(), IdOrder(|subReddits|))
    {
      all := [];
      var remaining: set<int> := subReddits.Keys;
      ghost var todo := IdOrder(|subReddits|);
      IdOrderEnumerates(|subReddits|, subReddits.Keys);
      order := [];
      ghost var feeds := Feeds();
      while |remaining| > 0
        invariant remaining <= subReddits.Keys
        invariant IsEnumeration(todo, remaining) && |todo| == |remaining|
        invariant IsEnumeration(order, subReddits.Keys - remaining)
        invariant all == Gather(feeds, order)
        decreases |remaining|
      {
        var key;
        key, todo := Pick(remaining, todo);
        all := all + subReddits[key].posts;
        assert Slice(feeds, key) == subReddits[key].posts;
        GatherStep(feeds, order, key);
        WalkExtend(order, subReddits.Keys, remaining, key);
        order := order + [key];
        remaining := remaining - {key};
      }
      AllPostsPermutation(order);
    }

    /** Whatever order the walk takes, it yields the posts of `Gather` in identity
        order rearranged, so as many posts as all the feeds hold together. */
    lemma AllPostsPermutation(order: seq<int>)
      requires SubRedditsKeyed() && IsEnumeration(order, subReddits.Keys)
      ensures multiset(Gather(Feeds(), order)) == multiset(Gather(Feeds(), IdOrder(|subReddits|)))
      ensures |Gather(Feeds(), order)| == TotalLength(Feeds(), IdOrder(|subReddits|))
    {
      IdOrderEnumerates(|subReddits|, subReddits.Keys);
      GatherPermutes(Feeds(), subReddits.Keys, order, IdOrder(|subReddits|));
      GatherLength(Feeds(), IdOrder(|subReddits|));
      assert |multiset(Gather(Feeds(), order))| == |multiset(Gather(Feeds(), IdOrder(|subReddits|)))|;
    }

    /** A post in the feed of a stored subreddit is one of "all posts". */
    lemma HeldPostGathered(k: int, i: int)
      requires SubRedditsKeyed() && k in subReddits && 0 <= i < |subReddits[k].posts|
      ensures AllPostsGathered() ==> subReddits[k].posts[i] in allPosts
    {
      var order := IdOrder(|subReddits|);
      IdOrderEnumerates(|subReddits|, subReddits.Keys);
      assert k in order && Slice(Feeds(), k) == subReddits[k].posts;
      GatherMember(Feeds(), order, subReddits[k].posts[i]);
    }

    method UserExists(username: string) returns (found: bool)
      requires UsersKeyed()
      ensures found <==> UsernameTaken(username)
    {
      var remaining: set<int> := users.Keys;
      ghost var todo := IdOrder(|users|);
      IdOrderEnumerates(|users|, users.Keys);
      while |remaining| > 0
        invariant remaining <= users.Keys
        invariant IsEnumeration(todo, remaining) && |todo| == |remaining|
        invariant forall k :: k in users && k !in remaining ==> users[k].username != username
        decreases |remaining|
      {
        var key;
        key, todo := Pick(remaining, todo);
        if users[key].username == username {
          return true;
        }
        remaining := remaining - {key};
      }
      return false;
    }

    method JoinSubReddit(user: User, sr: SubReddit) returns (result: Outcome)
      requires Valid()
      modifies sr`members
      ensures Valid()
      ensures result == if user.id in old(sr.members) then Fail(AlreadyMember) else Pass
      ensures sr.members == if result.Pass? then old(sr.members)[user.id := user] else old(sr.members)
    {
      if user.id in sr.members {
        return Fail(AlreadyMember);
      }
      LiveMembersKeyed(this, sr);
      sr.members := sr.members[user.id := user];
      MembersChanged(this, sr);
      result := Pass;
    }

    method LeaveSubReddit(user: User, sr: SubReddit) returns (result: Outcome)
      requires Valid()
      modifies sr`members
      ensures Valid()
      ensures result == if user.id in old(sr.members) then Pass else Fail(NotMember)
      ensures sr.members == if result.Pass? then old(sr.members) - {user.id} else old(sr.members)
    {
      if user.id !in sr.members {
        return Fail(NotMember);
      }
      LiveMembersKeyed(this, sr);
      sr.members := sr.members - {user.id};
      MembersChanged(this, sr);
      result := Pass;
    }
  }

  // Two-state lemmas: each re-establishes one part of `Valid` after one kind of
  // heap change, so that no operation has to reason about all of it at once.

  twostate lemma UsersKeyedFrame(e: RedditEngine)
    requires old(e.UsersKeyed()) && unchanged(e`users)
    ensures e.UsersKeyed()
  {
  }

  twostate lemma SubRedditsKeyedFrame(e: RedditEngine)
    requires old(e.SubRedditsKeyed()) && unchanged(e`subReddits)
    ensures e.SubRedditsKeyed()
  {
  }

  twostate lemma MessagesKeyedFrame(e: RedditEngine)
    requires old(e.MessagesKeyed()) && unchanged(e`messages)
    ensures e.MessagesKeyed()
  {
  }

  twostate lemma MembersKeyedFrame(e: RedditEngine)
    requires old(e.MembersKeyed()) && unchanged(e`subReddits)
    requires unchanged(old(e.subReddits.Values)`members)
    ensures e.MembersKeyed()
  {
  }

  /** Nothing about the subreddits, their feeds or their members changed. */
  twostate lemma SubRedditsFrame(e: RedditEngine)
    requires old(e.SubRedditsKeyed() && e.AllPostsGathered() && e.FeedsNumbered() && e.MembersKeyed())
    requires unchanged(e`subReddits, e`allPosts)
    requires forall k :: k in e.subReddits ==>
      e.subReddits[k].posts == old(e.subReddits[k].posts) && e.subReddits[k].members == old(e.subReddits[k].members)
    ensures e.SubRedditsKeyed() && e.AllPostsGathered() && e.FeedsNumbered() && e.MembersKeyed()
  {
    assert e.Feeds().Keys == old(e.Feeds()).Keys;
    forall k | k in e.Feeds() ensures e.Feeds()[k] == old(e.Feeds())[k] {
    }
    assert e.Feeds() == old(e.Feeds());
  }

  twostate lemma PostsWellFormedFrame(e: RedditEngine)
    requires old(e.PostsWellFormed()) && unchanged(e`allPosts)
    requires unchanged(old(e.allPosts)`comments)
    ensures e.PostsWellFormed()
  {
  }

  twostate lemma KarmaFrame(e: RedditEngine)
    requires old(e.KarmaMatchesVotes()) && unchanged(e`users, e`allPosts)
    requires unchanged(old(e.users.Values)`karma, old(e.allPosts)`votes)
    ensures e.KarmaMatchesVotes()
  {
  }

  /** A fresh user with no karma wrote none of the posts, so the sums still match. */
  twostate lemma KarmaAfterRegister(e: RedditEngine, new user: User)
    requires old(e.KarmaMatchesVotes())
    requires fresh(user) && user.karma == 0 && e.users == old(e.users)[user.id := user]
    requires unchanged(e`allPosts)
    requires unchanged(old(e.users.Values)`karma, old(e.allPosts)`votes)
    ensures e.KarmaMatchesVotes()
  {
    var t := Tally(e.allPosts);
    assert t == old(Tally(e.allPosts));
    TallyLength(e.allPosts);
    forall i | 0 <= i < |t| ensures t[i].0 != user {
      TallyAt(e.allPosts, i);
    }
    KarmaOfAbsent(user, t);
  }

  /** A fresh, empty subreddit adds an empty feed at the end of the identity order. */
  twostate lemma SubRedditAdded(e: RedditEngine, new sr: SubReddit)
    requires old(e.SubRedditsKeyed() && e.AllPostsGathered() && e.FeedsNumbered() && e.MembersKeyed())
    requires fresh(sr) && sr.id == old(|e.subReddits|) + 1 && sr.posts == [] && sr.members == map[]
    requires e.subReddits == old(e.subReddits)[sr.id := sr] && |e.subReddits| == sr.id
    requires unchanged(e`allPosts)
    requires unchanged(old(e.subReddits.Values)`posts, old(e.subReddits.Values)`members)
    ensures e.AllPostsGathered() && e.FeedsNumbered() && e.MembersKeyed()
  {
    var n := sr.id - 1;
    var feeds := old(e.Feeds());
    assert IdOrder(n + 1) == IdOrder(n) + [n + 1];
    assert e.Feeds() == feeds[n + 1 := []];
    GatherAgree(e.Feeds(), feeds, IdOrder(n));
  }

  /** A post numbered right after the last one of its feed keeps the feeds numbered. */
  twostate lemma FeedAppended(e: RedditEngine, new k: int, new post: Post)
    requires old(e.FeedsNumbered()) && k in old(e.subReddits) && unchanged(e`subReddits)
    requires post.id == old(|e.subReddits[k].posts|) + 1
    requires e.subReddits[k].posts == old(e.subReddits[k].posts) + [post]
    requires forall k' :: k' in e.subReddits && k' != k ==> e.subReddits[k'].posts == old(e.subReddits[k'].posts)
    ensures e.FeedsNumbered()
  {
    forall k' | k' in e.subReddits ensures PostsNumbered(e.subReddits[k'].posts) {
      assert old(PostsNumbered(e.subReddits[k'].posts));
    }
  }

  /** Appending a post to the feed under `k` changes the feeds at `k` only. */
  twostate lemma FeedsAfterAppend(e: RedditEngine, new k: int, new post: Post)
    requires k in old(e.subReddits) && unchanged(e`subReddits)
    requires e.subReddits[k].posts == old(e.subReddits[k].posts) + [post]
    requires forall k' :: k' in e.subReddits && k' != k ==> e.subReddits[k'].posts == old(e.subReddits[k'].posts)
    ensures e.Feeds() == old(e.Feeds())[k := old(e.Feeds())[k] + [post]]
  {
    var before := old(e.Feeds());
    var after := before[k := before[k] + [post]];
    assert e.Feeds().Keys == after.Keys;
    forall k' | k' in after ensures e.Feeds()[k'] == after[k'] {
    }
  }

  /** The new post lands in the concatenation right after the old posts of its
      subreddit, between the same two halves the old concatenation splits into. */
  twostate lemma PostPlaced(e: RedditEngine, new k: int, new post: Post) returns (front: seq<Post>, back: seq<Post>)
    requires old(e.SubRedditsKeyed() && e.AllPostsGathered()) && k in old(e.subReddits)
    requires unchanged(e`subReddits)
    requires e.subReddits[k].posts == old(e.subReddits[k].posts) + [post]
    requires forall k' :: k' in e.subReddits && k' != k ==> e.subReddits[k'].posts == old(e.subReddits[k'].posts)
    requires e.allPosts == Gather(e.Feeds(), IdOrder(|e.subReddits|))
    ensures old(e.allPosts) == front + back && e.allPosts == front + [post] + back
  {
    var feeds := old(e.Feeds());
    var order := IdOrder(|e.subReddits|);
    var j := k - 1;
    IdOrderEnumerates(|e.subReddits|, e.subReddits.Keys);
    assert order[j] == k;
    front := Gather(feeds, order[..j]) + feeds[k];
    back := Gather(feeds, order[j + 1..]);
    GatherSplit(feeds, order, j);
    FeedsAfterAppend(e, k, post);
    GatherAppendAt(feeds, order, j, post);
  }

  /** A fresh post without comments, inserted into the concatenation, keeps the
      posts distinct and their comments numbered. */
  twostate lemma PostsWellFormedAfterInsert(e: RedditEngine, new post: Post, new front: seq<Post>, new back: seq<Post>)
    requires old(e.PostsWellFormed()) && fresh(post) && post.comments == []
    requires old(e.allPosts) == front + back && e.allPosts == front + [post] + back
    requires unchanged(old(e.allPosts)`comments)
    ensures e.PostsWellFormed()
    ensures multiset(e.allPosts) == multiset(old(e.allPosts)) + multiset{post}
  {
    assert post !in old(e.allPosts);
    DistinctInsert(front, back, post);
    forall p | p in e.allPosts ensures CommentsNumbered(p.comments) {
      if p != post {
        assert p in old(e.allPosts);
      }
    }
  }

  /** A post without votes, inserted into the concatenation, moves no user's sum. */
  twostate lemma KarmaAfterInsert(e: RedditEngine, new post: Post, new front: seq<Post>, new back: seq<Post>)
    requires old(e.KarmaMatchesVotes()) && post.votes == 0
    requires old(e.allPosts) == front + back && e.allPosts == front + [post] + back
    requires unchanged(e`users)
    requires unchanged(old(e.allPosts)`votes, old(e.users.Values)`karma)
    ensures e.KarmaMatchesVotes()
  {
    assert Tally(front + back) == old(Tally(e.allPosts));
    TallyConcat(front, back);
    TallyConcat(front + [post], back);
    TallyConcat(front, [post]);
    assert Tally([post]) == [(post.author, 0)];
    forall u | u in e.users ensures e.users[u].karma == KarmaOf(e.users[u], Tally(e.allPosts)) {
      KarmaOfInsertZero(e.users[u], Tally(front), post.author, Tally(back));
    }
  }

  /** The new comment is numbered right after the post's old comments. */
  twostate lemma CommentAdded(e: RedditEngine, new i: int, new comment: Comment)
    requires old(e.PostsWellFormed()) && 0 <= i < old(|e.allPosts|) && unchanged(e`allPosts)
    requires e.allPosts[i].comments == old(e.allPosts[i].comments) + [comment]
    requires comment.id == old(|e.allPosts[i].comments|) + 1 && comment.votes == 0 && comment.replies == []
    requires forall p :: p in old(e.allPosts) && p != e.allPosts[i] ==> p.comments == old(p.comments)
    ensures e.PostsWellFormed()
  {
  }

  /** Moving one post's votes and its author's karma by the same amount keeps
      every user's karma equal to the sum over that user's posts. */
  twostate lemma KarmaAfterVote(e: RedditEngine, new i: int, new d: int)
    requires old(e.KarmaMatchesVotes() && e.PostsWellFormed()) && 0 <= i < old(|e.allPosts|)
    requires unchanged(e`users, e`allPosts)
    requires e.allPosts[i].votes == old(e.allPosts[i].votes) + d
    requires e.allPosts[i].author.karma == old(e.allPosts[i].author.karma) + d
    requires forall p :: p in old(e.allPosts) && p != e.allPosts[i] ==> p.votes == old(p.votes)
    requires forall u :: u in old(e.users.Values) && u != e.allPosts[i].author ==> u.karma == old(u.karma)
    ensures e.KarmaMatchesVotes()
  {
    var all := e.allPosts;
    TallyShift(all, i, d);
    forall k | k in e.users ensures e.users[k].karma == KarmaOf(e.users[k], Tally(all)) {
      KarmaOfShift(e.users[k], old(Tally(all)), i, d);
    }
  }

  /** Moving the votes of the post at `i` by `d` moves entry `i` of the tally by
      `d` and no other entry. */
  twostate lemma {:induction false} TallyShift(posts: seq<Post>, new i: nat, new d: int)
    requires i < |posts| && Distinct(posts)
    requires posts[i].votes == old(posts[i].votes) + d
    requires forall j :: 0 <= j < |posts| && j != i ==> posts[j].votes == old(posts[j].votes)
    ensures |old(Tally(posts))| == |posts|
    ensures old(Tally(posts))[i] == (posts[i].author, old(posts[i].votes))
    ensures Tally(posts) == old(Tally(posts))[i := (posts[i].author, old(posts[i].votes) + d)]
    decreases |posts|
  {
    var n := |posts| - 1;
    var front := posts[..n];
    if i == n {
      assert posts[n] !in front;
      assert Tally(front) == old(Tally(front));
      TallyLength(front);
    } else {
      TallyShift(front, i, d);
    }
  }

  /** Changing the members of one subreddit, keyed by identity, keeps every
      subreddit's members keyed; nothing else changed. */
  twostate lemma MembersChanged(e: RedditEngine, new sr: SubReddit)
    requires old(e.Valid())
    requires unchanged(e)
    requires forall s :: s in old(e.subReddits.Values) && s != sr ==> s.members == old(s.members)
    requires unchanged(old(e.users.Values)`karma, old(e.subReddits.Values)`posts)
    requires unchanged(old(e.allPosts)`votes, old(e.allPosts)`comments)
    requires sr.id in old(e.subReddits) && old(e.subReddits)[sr.id] == sr ==> forall id :: id in sr.members ==> sr.members[id].id == id
    ensures e.Valid()
  {
  }

  /** A live subreddit keys its members by identity. */
  lemma LiveMembersKeyed(e: RedditEngine, sr: SubReddit)
    requires e.MembersKeyed()
    ensures e.IsLiveSubReddit(sr) ==> forall id :: id in sr.members ==> sr.members[id].id == id
  {
  }
}
