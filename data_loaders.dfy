/**
 * The seven batch functions that `buildDataLoaders` hands to DataLoader.
 * Each receives the requested keys and the rows a `findMany ... where key in
 * keys` returned for them (in an order storage chose), and answers one slot
 * per requested key.
 *
 * The storage query is not modelled: its result is the `rows` parameter.
 */
module DataLoaders {
  import opened Rows
  import Demux

  /** `memberTypeLoader`: each key's member type, or `undefined`. */
  method MemberTypeLoader(ids: seq<Key>, memberTypes: seq<MemberType>) returns (out: seq<Lookup<MemberType>>)
    ensures out == Demux.ByKey(ids, memberTypes, MemberTypeIdOf, Undefined)
  {
    var memberTypeById := Demux.IndexByKey(memberTypes, MemberTypeIdOf);
    out := seq(|ids|, i requires 0 <= i < |ids| =>
      if ids[i] in memberTypeById then Found(memberTypeById[ids[i]]) else Undefined);
    assert forall i :: 0 <= i < |ids| ==>
      Demux.Get(memberTypeById, ids[i]) == Demux.LastWithKey(memberTypes, MemberTypeIdOf, ids[i]);
  }

  /** `postsByIdLoader`: each key's post, or `undefined`. */
  method PostsByIdLoader(ids: seq<Key>, posts: seq<Post>) returns (out: seq<Lookup<Post>>)
    ensures out == Demux.ByKey(ids, posts, PostIdOf, Undefined)
  {
    var postById := Demux.IndexByKey(posts, PostIdOf);
    out := seq(|ids|, i requires 0 <= i < |ids| =>
      if ids[i] in postById then Found(postById[ids[i]]) else Undefined);
    assert forall i :: 0 <= i < |ids| ==>
      Demux.Get(postById, ids[i]) == Demux.LastWithKey(posts, PostIdOf, ids[i]);
  }

  /** `userByIdLoader`: each key's user, or `undefined`. */
  method UserByIdLoader(ids: seq<Key>, users: seq<User>) returns (out: seq<Lookup<User>>)
    ensures out == Demux.ByKey(ids, users, UserIdOf, Undefined)
  {
    var userById := Demux.IndexByKey(users, UserIdOf);
    out := seq(|ids|, i requires 0 <= i < |ids| =>
      if ids[i] in userById then Found(userById[ids[i]]) else Undefined);
    assert forall i :: 0 <= i < |ids| ==>
      Demux.Get(userById, ids[i]) == Demux.LastWithKey(users, UserIdOf, ids[i]);
  }

  /** `profileByUserIdLoader`: each user's profile (keyed by `userId`), or `null`. */
  method ProfileByUserIdLoader(userIds: seq<Key>, profiles: seq<Profile>) returns (out: seq<Lookup<Profile>>)
    ensures out == Demux.ByKey(userIds, profiles, ProfileUserIdOf, Null)
  {
    var profileByUserId := Demux.IndexByKey(profiles, ProfileUserIdOf);
    out := seq(|userIds|, i requires 0 <= i < |userIds| =>
      if userIds[i] in profileByUserId then Found(profileByUserId[userIds[i]]) else Null);
    assert forall i :: 0 <= i < |userIds| ==>
      Demux.Get(profileByUserId, userIds[i]) == Demux.LastWithKey(profiles, ProfileUserIdOf, userIds[i]);
  }

  /**
   * `postsByAuthorIdLoader`: each author's posts in storage order, or `null`
   * for an author with none; a slot is never an empty list.
   */
  method PostsByAuthorIdLoader(authorIds: seq<Key>, posts: seq<Post>) returns (out: seq<Lookup<seq<Post>>>)
    ensures |out| == |authorIds|
    ensures forall i :: 0 <= i < |authorIds| ==>
              var bucket := Demux.Grouped(authorIds, posts, PostAuthorIdOf, SamePost)[i];
              out[i] == if bucket == [] then Null else Found(bucket)
  {
    var postByAuthorId := Demux.GroupByKey(posts, PostAuthorIdOf, SamePost);
    out := seq(|authorIds|, i requires 0 <= i < |authorIds| =>
      if authorIds[i] in postByAuthorId then Found(postByAuthorId[authorIds[i]]) else Null);
  }

  /** `userSubscribedToLoader`: for each subscriber, the authors they subscribe to, or `[]`. */
  method UserSubscribedToLoader(userIds: seq<Key>, subscriptions: seq<Subscription>) returns (out: seq<seq<User>>)
    ensures out == Demux.Grouped(userIds, subscriptions, SubscriberIdOf, AuthorOf)
  {
    var authorsBySubscriberId := Demux.GroupByKey(subscriptions, SubscriberIdOf, AuthorOf);
    out := seq(|userIds|, i requires 0 <= i < |userIds| =>
      if userIds[i] in authorsBySubscriberId then authorsBySubscriberId[userIds[i]] else []);
  }

  /** `subscribedToUserLoader`: for each author, the users subscribed to them, or `[]`. */
  method SubscribedToUserLoader(userIds: seq<Key>, subscriptions: seq<Subscription>) returns (out: seq<seq<User>>)
    ensures out == Demux.Grouped(userIds, subscriptions, AuthorIdOf, SubscriberOf)
  {
    var subscribersByAuthorId := Demux.GroupByKey(subscriptions, AuthorIdOf, SubscriberOf);
    out := seq(|userIds|, i requires 0 <= i < |userIds| =>
      if userIds[i] in subscribersByAuthorId then subscribersByAuthorId[userIds[i]] else []);
  }

  /**
   * A member type, post or user key with no returned row answers `undefined`,
   * while a user with no profile answers `null`: the two variants of "not
   * found" in one loader bundle. Each conclusion needs only its own loader's
   * rows to lack the key.
   */
  lemma MissingMarkers(ids: seq<Key>, i: nat, memberTypes: seq<MemberType>, posts: seq<Post>, users: seq<User>, profiles: seq<Profile>)
    requires i < |ids|
    ensures (forall j :: 0 <= j < |memberTypes| ==> memberTypes[j].id != ids[i]) ==>
              Demux.ByKey(ids, memberTypes, MemberTypeIdOf, Undefined)[i] == Undefined
    ensures (forall j :: 0 <= j < |posts| ==> posts[j].id != ids[i]) ==>
              Demux.ByKey(ids, posts, PostIdOf, Undefined)[i] == Undefined
    ensures (forall j :: 0 <= j < |users| ==> users[j].id != ids[i]) ==>
              Demux.ByKey(ids, users, UserIdOf, Undefined)[i] == Undefined
    ensures (forall j :: 0 <= j < |profiles| ==> profiles[j].userId != ids[i]) ==>
              Demux.ByKey(ids, profiles, ProfileUserIdOf, Null)[i] == Null
  {
    Demux.ByKeyAt(ids, memberTypes, MemberTypeIdOf, Undefined, i);
    Demux.ByKeyAt(ids, posts, PostIdOf, Undefined, i);
    Demux.ByKeyAt(ids, users, UserIdOf, Undefined, i);
    Demux.ByKeyAt(ids, profiles, ProfileUserIdOf, Null, i);
  }

  /**
   * A key that no returned row carries has an empty bucket in each grouping
   * loader, each conclusion needing only its own key field to lack the key;
   * the loaders' own contracts turn that empty bucket into `null` or `[]`.
   */
  lemma NoMatchDefaults(ids: seq<Key>, i: nat, posts: seq<Post>, subscriptions: seq<Subscription>)
    requires i < |ids|
    ensures (forall j :: 0 <= j < |posts| ==> posts[j].authorId != ids[i]) ==>
              Demux.Grouped(ids, posts, PostAuthorIdOf, SamePost)[i] == []
    ensures (forall j :: 0 <= j < |subscriptions| ==> subscriptions[j].subscriberId != ids[i]) ==>
              Demux.Grouped(ids, subscriptions, SubscriberIdOf, AuthorOf)[i] == []
    ensures (forall j :: 0 <= j < |subscriptions| ==> subscriptions[j].authorId != ids[i]) ==>
              Demux.Grouped(ids, subscriptions, AuthorIdOf, SubscriberOf)[i] == []
  {
    Demux.MatchingEmpty(posts, PostAuthorIdOf, SamePost, ids[i]);
    Demux.MatchingEmpty(subscriptions, SubscriberIdOf, AuthorOf, ids[i]);
    Demux.MatchingEmpty(subscriptions, AuthorIdOf, SubscriberOf, ids[i]);
  }
}
