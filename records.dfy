/** The record shapes the client exchanges with the server. */
module Records {
  import opened Wrappers

  datatype Author = Author(id: string, name: string)

  /** A book as listed by the server; `coverImage` and `file` are URLs. */
  datatype Book = Book(
    id: string,
    title: string,
    description: string,
    genre: string,
    author: Author,
    coverImage: string,
    file: string,
    createdAt: string)

  /** The profile record returned by a profile update. Dates are kept as their
      serialised text. */
  datatype User = User(
    id: string,
    name: string,
    username: string,
    email: string,
    bio: Option<string>,
    profilePhoto: Option<string>,
    createdAt: string,
    updatedAt: Option<string>)
}
