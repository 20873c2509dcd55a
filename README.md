# Reddit engine model

A model of the in-memory store of a small Reddit-like service: the
`RedditEngine` of `engine/engine.go` and the records of `engine/types.go`.
The engine holds three maps keyed by identity (users, subreddits, direct
messages). Posts live in a subreddit's `posts` slice and comments live in a
post's `comments` slice. Every record is a heap object shared by reference,
so each one is a Dafny `class`. A vote changes the post's tally and, through
the post's author reference, that user's karma.

Files:

- `types.dfy` (module `Types`): the records `User`, `SubReddit`, `Post`,
  `Comment` and `Message`, plus the numbering predicates `PostsNumbered` and
  `CommentsNumbered`.
- `engine.dfy` (module `Engine`): the `RedditEngine` class, its invariant
  `Valid` and all of its operations. Two-state lemmas each re-establish one
  part of `Valid` after one kind of heap change.
- `seqs.dfy` (module `Seqs`): walks over a map's keys and the concatenation
  of the slices met along a walk (`Gather`).
- `karma.dfy` (module `Karma`): karma as the sum of a user's entries in a
  vote tally.
- `scenarios.dfy` (module `Scenarios`): short runs of several operations in
  a row and the outcome each one must have.

`Valid` is the engine invariant. It states:

- Each of the three maps is keyed exactly 1..n, and every stored record's
  `id` equals its key. This is why `len(collection) + 1` is always a fresh
  identity that leaves no gap.
- Each stored subreddit numbers its posts 1..n in creation order.
- Each stored subreddit keys its members by the member's own identity.
- Every post of a stored subreddit numbers its comments 1..n. None of its
  comments has replies or votes.
- "All posts" is a ghost sequence: every subreddit's feed, concatenated in
  subreddit identity order. No post occurs twice in it.
- Every stored user's karma equals the sum of the votes of the posts in
  "all posts" that the user wrote.

Go's `range` over a map visits the keys in an unspecified order. Each scan
is a loop that takes any remaining key (`Seqs.Pick`). Its postconditions
therefore hold for every visiting order. `GetAllPosts` also returns the
order it took, as a ghost value. Its result is the feeds concatenated in
that order, and the lemma `AllPostsPermutation` shows that this is a
rearrangement of "all posts".

## Model

| member | source | states |
|---|---|---|
| Types.User.constructor | engine/types.go:7-11 | a user has the given identity and name and starts with karma 0 |
| Types.SubReddit.constructor | engine/types.go:13-18 | a subreddit has the given identity and name, no members and no posts |
| Types.Post.constructor | engine/types.go:20-27 | a post has the given identity, title, content and author, no votes and no comments |
| Types.Comment.constructor | engine/types.go:29-35 | a comment has the given identity, content and author, no votes and no replies |
| Types.Message.constructor | engine/types.go:37-42 | a message has the given identity, sender, recipient and content |
| Engine.RedditEngine.constructor | engine/engine.go:4-10 | a new engine has three empty maps and satisfies the invariant |
| Engine.RedditEngine.RegisterAccount | engine/engine.go:12-21 | the new user gets identity old count + 1 and karma 0, exactly that key is added, the other users are unchanged, there is no duplicate-name check, and the invariant (keys 1..n, karma equals the sum of votes) is kept |
| Engine.RedditEngine.CreateSubReddit | engine/engine.go:23-33 | the new subreddit gets identity old count + 1, exactly that key is added, it starts with no members and no posts, and the invariant is kept |
| Engine.RedditEngine.CreatePost | engine/engine.go:35-46 | the post gets identity old feed length + 1 and is appended to the end of the feed with nothing else in the feed changed; when the engine holds the subreddit, "all posts" gains exactly this post; the invariant (feeds numbered 1..n, no post twice, karma sums) is kept |
| Engine.RedditEngine.CreateComment | engine/engine.go:50-60 | the comment gets identity old comment count + 1, with no votes and no replies, and is appended to the end of the post's comments; the invariant is kept |
| Engine.RedditEngine.Vote | engine/engine.go:62-72 | an up vote adds 1 to the post's votes and to its author's karma and a down vote subtracts 1 from both, with no bound; nothing else is changed and "karma equals the sum of votes" is kept |
| Engine.RedditEngine.GetFeed | engine/engine.go:74-78 | the feed is the subreddit's posts in creation order; for a subreddit the engine holds they are numbered 1..n |
| Engine.RedditEngine.SendMessage | engine/engine.go:80-91 | the message gets identity old count + 1, exactly that key is added, and the invariant is kept |
| Engine.RedditEngine.GetMessages | engine/engine.go:93-103 | a stored message is in the inbox exactly when its recipient is the given user (compared by reference); the inbox holds only such stored messages, each once |
| Engine.RedditEngine.GetSubRedditByName | engine/engine.go:105-114 | the result is null exactly when no stored subreddit has that name; otherwise it is a stored subreddit with exactly that name |
| Engine.RedditEngine.GetUserByUsername | engine/engine.go:116-125 | the result is null exactly when no stored user has that name; otherwise it is a stored user with exactly that name |
| Engine.RedditEngine.GetPostByID | engine/engine.go:127-138 | the result is null exactly when no feed holds a post with that identity; otherwise it is the first such post of the feed of some stored subreddit, which subreddit being unspecified, and so one of "all posts", the posts a vote may be cast on |
| Engine.RedditEngine.GetAllPosts | engine/engine.go:140-150 | for some walk over all the subreddit keys, the result is their feeds concatenated in walk order, each feed as one block in creation order; it is a rearrangement of "all posts", and its length is the sum of the feed lengths |
| Engine.RedditEngine.AllPostsPermutation | engine/engine.go:145-147 | every walk over the subreddit keys gathers the same posts as often as the identity-order walk does, and so gathers as many posts as all the feeds hold |
| Engine.RedditEngine.HeldPostGathered | engine/engine.go:130-133 | a post in the feed of a stored subreddit is one of "all posts" |
| Engine.RedditEngine.UserExists | engine/engine.go:152-161 | the answer is true exactly when some stored user has that name |
| Engine.RedditEngine.JoinSubReddit | engine/engine.go:163-171 | fails with "already a member" exactly when the user's identity is a member key; on success exactly that key is added, mapping to the user, and on failure the members are unchanged |
| Engine.RedditEngine.LeaveSubReddit | engine/engine.go:173-181 | fails with "not a member" exactly when the user's identity is not a member key; on success exactly that key is removed, and on failure the members are unchanged |
| Engine.KeysAreOneToInsert | engine/engine.go:16-19 | adding key old count + 1 to a map keyed 1..n gives a map keyed 1..n+1 |
| Engine.TallyAt | engine/engine.go:62-72 | the tally has one entry per post, and entry i is post i's author and votes |
| Engine.TallyLength | engine/engine.go:62-72 | the tally has one entry per post |
| Engine.TallyConcat | engine/engine.go:38-44 | the tally of two post sequences joined is the two tallies joined |
| Engine.TallyShift | engine/engine.go:65-71 | moving one post's votes by d moves only that post's tally entry, by d |
| Engine.KarmaAfterRegister | engine/engine.go:15-19 | a fresh user with karma 0 wrote no post, so every user's karma still equals the sum of that user's votes |
| Engine.SubRedditAdded | engine/engine.go:26-31 | a fresh, empty subreddit added under the next identity keeps "all posts" equal to the feed concatenation, and keeps the feeds numbered and the members keyed |
| Engine.FeedAppended | engine/engine.go:38-44 | a post numbered old length + 1 and appended to one feed keeps every feed numbered 1..n |
| Engine.FeedsAfterAppend | engine/engine.go:44 | appending to one subreddit's posts changes the feeds at that subreddit only |
| Engine.PostPlaced | engine/engine.go:44 | the new post lands in "all posts" right after the old posts of its subreddit, between the two halves the old sequence splits into |
| Engine.PostsWellFormedAfterInsert | engine/engine.go:38-44 | inserting a fresh post with no comments keeps the posts distinct and their comments numbered, and adds exactly that post |
| Engine.KarmaAfterInsert | engine/engine.go:38-44 | inserting a post with 0 votes changes no user's vote sum |
| Engine.CommentAdded | engine/engine.go:53-58 | a comment numbered old count + 1, with no votes or replies and appended to one post, keeps every post's comments numbered |
| Engine.KarmaAfterVote | engine/engine.go:65-71 | moving one post's votes and its author's karma by the same amount keeps every user's karma equal to that user's vote sum |
| Engine.MembersChanged | engine/engine.go:169-179 | changing one subreddit's members, keyed by identity, keeps the invariant |
| Seqs.IdOrderEnumerates | engine/engine.go:108 | the identities 1..n visit each key of a map keyed 1..n exactly once |
| Seqs.GatherConcat | engine/engine.go:145-147 | gathering along two walks joined equals the two gatherings joined |
| Seqs.GatherSplit | engine/engine.go:145-147 | a gathering splits around the slice of the key at any position of the walk |
| Seqs.GatherLength | engine/engine.go:145-147 | a gathering has as many elements as the visited slices together |
| Seqs.GatherMember | engine/engine.go:145-147 | an element is gathered exactly when the slice of some visited key holds it |
| Seqs.GatherAgree | engine/engine.go:145-147 | gathering reads only the slices of the keys the walk visits |
| Seqs.GatherAppendAt | engine/engine.go:44 | appending to the slice of the key at position j of a walk without repeats inserts the element right after that slice within the gathering |
| Seqs.GatherPermutes | engine/engine.go:145-147 | two walks over the same keys gather the same elements, each as often |
| Seqs.EnumerationWithout | engine/engine.go:108 | dropping position j of a walk over some keys gives a walk over the other keys |
| Seqs.EnumerationAppend | engine/engine.go:145 | extending a walk by an unvisited key gives a walk over one more key |
| Seqs.GatherStep | engine/engine.go:146 | extending a walk by one key appends that key's slice to the gathering |
| Seqs.WalkExtend | engine/engine.go:145 | a walk over the keys already taken, extended by a key still to be taken, is a walk over the keys taken after that step |
| Seqs.DistinctInsert | engine/engine.go:44 | inserting an element not present keeps a sequence free of repetitions |
| Seqs.DistinctOnce | engine/engine.go:97-101 | an element of a sequence without repetitions occurs in it exactly once |
| Seqs.Pick | engine/engine.go:119 | one step of a map walk takes some key still to be visited and leaves a walk over the rest |
| Karma.KarmaOfConcat | engine/engine.go:62-72 | the vote sum over two tallies joined is the sum of the two vote sums |
| Karma.KarmaOfShift | engine/engine.go:65-71 | shifting one tally entry by d shifts only its author's vote sum, by d |
| Karma.KarmaOfInsertZero | engine/engine.go:38-43 | an entry with 0 votes, inserted anywhere, changes nobody's vote sum |
| Karma.KarmaOfAbsent | engine/engine.go:15-18 | someone who wrote none of the entries has a vote sum of 0 |
| Scenarios.VoteRoundTrip | engine/engine.go:62-72 | an up vote followed by a down vote restores the post's votes and its author's karma |
| Scenarios.VoteRepeatedly | engine/engine.go:62-72 | n up votes in a row move the post's votes and its author's karma by exactly n |
| Scenarios.LookupThenVote | engine/engine.go:127-138 | looking a post up by identity and voting on it: the result is null exactly when no feed holds that identity; otherwise the found post is one of "all posts" and its votes and its author's karma both go up by 1, with the invariant kept |
| Scenarios.CreateThenFeed | engine/engine.go:35-46 | a post created in a stored subreddit is then the last post of its feed, after the old posts, and its identity is the feed's length |
| Scenarios.JoinTwice | engine/engine.go:163-171 | a second join by the same user fails with "already a member", and the members are as the first join left them |
| Scenarios.JoinThenLeave | engine/engine.go:163-181 | a join followed by a leave both succeed and restore the original members |
| Scenarios.JoinLeaveJoin | engine/engine.go:163-181 | join, leave and join again all succeed, and the user ends up a member |
| Scenarios.MessageDelivered | engine/engine.go:80-103 | for a sender a other than b, a message from a to b is in b's inbox exactly once and is not in a's inbox |
| Scenarios.ExistsMatchesLookup | engine/engine.go:116-125 | `UserExists` answers true exactly when `GetUserByUsername` returns a user, and that user has the name asked for |

## Left out

- The mutex at engine/types.go:48 and the locking in every operation are not modelled. Each operation is one atomic step, and many voters voting at once appears only in its serial form (`Scenarios.VoteRepeatedly`).
- The HTTP layer, the command-line clients, the workload simulator and the server start-up are outside the engine and are not part of this model. This includes the login-or-register composition of `UserExists`, `GetUserByUsername` and `RegisterAccount` that the HTTP layer performs.
- Go's fixed-width `int` is modelled as an unbounded integer. Identities, votes and karma never wrap.
- The order of Go's map iteration is not fixed. The scans hold for every visiting order rather than one concrete order.
- Engine.RedditEngine.Vote: requires that the engine holds the post. With a post that no subreddit holds, the author's karma would move while no held post's votes did, and "karma equals the sum of votes" could not be kept.
- Engine.RedditEngine.GetMessages: does not state the order of the inbox, because it follows the map walk. The contract states which messages it holds, each once.
- Engine.RedditEngine.CreatePost and Engine.RedditEngine.CreateComment: accept a subreddit or post the engine does not hold, as the Go code does. Only the held ones are covered by the invariant.
- Engine.RedditEngine.CreatePost: does not state that the author is a stored user, and neither does the invariant. The Go engine does not check it (engine/engine.go:38-43); the callers only pass users they registered or looked up.
- Engine.RedditEngine.JoinSubReddit: does not state that members are stored users, and neither does the invariant. The Go engine does not check it (engine/engine.go:169).
- Engine.RedditEngine.SendMessage: does not state that the sender and the recipient are stored users, and neither does the invariant. The Go engine does not check it (engine/engine.go:83-89).
- Unique names are not an engine property, so the model does not state them. `RegisterAccount` and `CreateSubReddit` store a name that is already taken (engine/engine.go:15-19, engine/engine.go:26-31). The login-or-register path of the HTTP layer keeps user names unique only when requests do not overlap, because the check and the registration are two separate calls (api.go:201-207), each taking the lock on its own. Nothing keeps subreddit names unique, and `GetSubRedditByName` then returns any subreddit with that name.
- Fields that no operation writes after construction are `const`. This includes a comment's votes and replies, which no engine operation changes.
- A scenario with several posts created in a row is not written, because verifying several chained `CreatePost` calls against the whole invariant is slow. `Scenarios.CreateThenFeed` covers one call: the new post is the last post of the feed and its identity is the feed's length.
- Nil references are not modelled: every reference parameter is a non-null class type. The Go code accepts nil in places, storing a post with a nil author (engine/engine.go:42) that a later vote dereferences (engine/engine.go:67), storing a message with a nil recipient (engine/engine.go:86) that `GetMessages(nil)` returns (engine/engine.go:98), and dereferencing a nil user in a join or leave (engine/engine.go:166, engine/engine.go:176). Every caller of the engine passes non-nil references.
