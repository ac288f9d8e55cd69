/**
 * The rows the storage layer returns, the key fields the batch functions
 * demultiplex on, and the values a batch function puts in its output.
 * Floating-point columns (a user's balance, a member type's discount) are
 * not modelled.
 */
module Rows {

  /** Entity identifiers are strings (UUIDs, or BASIC/BUSINESS for member types). */
  type Key = string

  datatype MemberType = MemberType(id: Key, postsLimitPerMonth: int)

  datatype Post = Post(id: Key, title: string, content: string, authorId: Key)

  datatype User = User(id: Key, name: string)

  datatype Profile = Profile(id: Key, isMale: bool, yearOfBirth: int, userId: Key, memberTypeId: Key)

  /** A profile row fetched with its member type included. */
  datatype ProfileWithMemberType = ProfileWithMemberType(profile: Profile, memberType: MemberType)

  /** A subscription row fetched with the subscriber and author users included. */
  datatype Subscription = Subscription(subscriberId: Key, authorId: Key, subscriber: User, author: User)

  /**
   * One slot of a batch function's output in JavaScript: a value, or one of
   * the two absent markers `undefined` (what indexing a record at a missing
   * key yields) and `null` (what `|| null` substitutes).
   */
  datatype Lookup<T> = Found(value: T) | Undefined | Null

  function MemberTypeIdOf(m: MemberType): Key { m.id }

  function PostIdOf(p: Post): Key { p.id }

  function PostAuthorIdOf(p: Post): Key { p.authorId }

  function UserIdOf(u: User): Key { u.id }

  function ProfileUserIdOf(p: Profile): Key { p.userId }

  function SubscriberIdOf(s: Subscription): Key { s.subscriberId }

  function AuthorIdOf(s: Subscription): Key { s.authorId }

  function SubscriberOf(s: Subscription): User { s.subscriber }

  function AuthorOf(s: Subscription): User { s.author }

  function SamePost(p: Post): Post { p }
}
