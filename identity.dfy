/** Who is asking: the user the authentication layer attaches to a request
    (and that the client keeps after logging in), and the owner-or-admin rule
    both sides apply to blogs. */
module Identity {
  /** A user id, compared as its string form. */
  type UserId = string

  const AdminRole := "admin"

  /** The authenticated user: id and role. */
  datatype User = User(id: UserId, role: string)

  /** The role that may act on other users' blogs. */
  predicate IsAdmin(u: User) {
    u.role == AdminRole
  }

  /** The owner of a record, or an administrator. */
  predicate OwnerOrAdmin(u: User, owner: UserId) {
    u.id == owner || IsAdmin(u)
  }
}
