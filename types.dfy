/** The record shapes of the writing platform: a published Writing and the
    Comments attached to it, as they are kept in the browser's local storage. */
module Types {

  datatype Option<+T> = None | Some(value: T)

  /** The closed set of categories a writing belongs to. */
  datatype Kind = Poem | Story | Essay | Other

  /** An account, as the record type declares it; dates are ISO strings. */
  datatype User = User(
    id: string,
    username: string,
    email: string,
    profilePic: Option<string>,
    bio: Option<string>,
    joinedAt: string)

  /** The author summary a comment carries. */
  datatype CommentAuthor = CommentAuthor(
    id: string,
    username: string,
    profilePic: Option<string>,
    joinedAt: string)

  /** Feedback attached to one writing; only stored and copied by the core. */
  datatype Comment = Comment(
    id: string,
    content: string,
    authorId: Option<string>,
    author: CommentAuthor,
    writingId: Option<string>,
    createdAt: string)

  /** One published piece. Fields the record type marks optional, and fields
      that the code's own producers of records leave out (authorId,
      updatedAt, comments), are `Option`s. Ratings are only stored and
      copied, so `averageRating` is a `real`. */
  datatype Writing = Writing(
    id: string,
    title: string,
    content: string,
    kind: Kind,
    authorId: Option<string>,
    author: Option<User>,
    authorName: Option<string>,
    createdAt: string,
    updatedAt: Option<string>,
    averageRating: real,
    totalRatings: nat,
    comments: Option<seq<Comment>>,
    excerpt: Option<string>,
    commentsCount: Option<nat>)

  function Min(a: int, b: int): int
  {
    if a <= b then a else b
  }
}
