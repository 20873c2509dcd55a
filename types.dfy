/**
 * The records of the engine, as heap objects shared by reference.
 *
 * A field that no engine operation writes after the record is built is a
 * `const`; the ones the engine updates in place (a user's karma, a
 * subreddit's members and posts, a post's votes and comments) are `var`s.
 * Go's `[]*T` slices are `seq`s and `map[int]*User` is a `map<int, User>`.
 */
module Types {

  class User {
    const id: int
    const username: string
    var karma: int

    constructor (id: int, username: string)
      ensures this.id == id && this.username == username && karma == 0
    {
      this.id := id;
      this.username := username;
      karma := 0;
    }
  }

  class SubReddit {
    const id: int
    const name: string
    /** Members keyed by user identity: at most one entry per user. */
    var members: map<int, User>
    /** Posts in creation order. */
    var posts: seq<Post>

    constructor (id: int, name: string)
      ensures this.id == id && this.name == name
      ensures members == map[] && posts == []
    {
      this.id := id;
      this.name := name;
      members := map[];
      posts := [];
    }
  }

  class Post {
    /** Unique only among the posts of the subreddit that holds it. */
    const id: int
    const title: string
    const content: string
    const author: User
    var votes: int
    /** Comments in creation order. */
    var comments: seq<Comment>

    constructor (id: int, title: string, content: string, author: User)
      ensures this.id == id && this.title == title && this.content == content
      ensures this.author == author && votes == 0 && comments == []
    {
      this.id := id;
      this.title := title;
      this.content := content;
      this.author := author;
      votes := 0;
      comments := [];
    }
  }

  class Comment {
    /** Unique only among the comments of the post that holds it. */
    const id: int
    const content: string
    const author: User
    /** No engine operation votes on a comment. */
    const votes: int
    /** No engine operation creates a reply. */
    const replies: seq<Comment>

    constructor (id: int, content: string, author: User)
      ensures this.id == id && this.content == content && this.author == author
      ensures votes == 0 && replies == []
    {
      this.id := id;
      this.content := content;
      this.author := author;
      votes := 0;
      replies := [];
    }
  }

  class Message {
    const id: int
    const from: User
    const to: User
    const content: string

    constructor (id: int, from: User, to: User, content: string)
      ensures this.id == id && this.from == from && this.to == to && this.content == content
    {
      this.id := id;
      this.from := from;
      this.to := to;
      this.content := content;
    }
  }

  /** The posts of a subreddit are numbered 1, 2, ... in creation order. */
  predicate PostsNumbered(posts: seq<Post>) {
    forall i :: 0 <= i < |posts| ==> posts[i].id == i + 1
  }

  /** The comments of a post are numbered 1, 2, ... in creation order, none
      has replies and none has votes. */
  predicate CommentsNumbered(comments: seq<Comment>) {
    forall i :: 0 <= i < |comments| ==>
      comments[i].id == i + 1 && comments[i].replies == [] && comments[i].votes == 0
  }
}
