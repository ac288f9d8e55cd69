/**
 * The batch functions of `getDataLoaders` and the `fetch...ById` entries of
 * the `Loaders` bundle that delegate to them.
 *
 * `userByIdLoader` demultiplexes one batched query like the loaders of
 * DataLoaders. `postLoader` and `profileLoader` instead issue one `findUnique`
 * per key and collect the answers in a JavaScript `Set`, which drops repeated
 * values; `subscribersByAuthorLoader` returns the subscriber of every
 * subscription row without grouping by key.
 *
 * DataLoader itself is not modelled beyond its one requirement on a batch
 * function: the output must be exactly as long as the key list, or every
 * load of that batch fails (Deliver).
 */
module Loaders {
  import opened Wrappers
  import opened Rows
  import Demux
  import DataLoaders

  /**
   * A JavaScript value of type `T | null`. Every `findUnique` call yields a
   * freshly allocated object, and a `Set` compares objects by identity, so an
   * object carries `ref`, the number of the call that allocated it; `null` is
   * one value however often it occurs.
   */
  datatype JsValue<T> = JsNull | JsObject(ref: nat, val: T)

  /**
   * What the sequential loop hands to `set.add`: call i answers `null` for a
   * missing key and otherwise the object it allocated.
   */
  function LookupResults<T>(ids: seq<Key>, lookup: Key -> Option<T>): (vs: seq<JsValue<T>>)
    ensures |vs| == |ids|
    ensures forall i :: 0 <= i < |ids| ==>
              (vs[i] == JsNull <==> lookup(ids[i]).None?) &&
              (vs[i].JsObject? ==> vs[i].ref == i && Some(vs[i].val) == lookup(ids[i]))
  {
    seq(|ids|, i requires 0 <= i < |ids| =>
      match lookup(ids[i])
      case None => JsNull
      case Some(r) => JsObject(i, r))
  }

  /** No value occurs twice. */
  ghost predicate NoDuplicates<E>(s: seq<E>)
  {
    forall i, j :: 0 <= i < j < |s| ==> s[i] != s[j]
  }

  /**
   * `Array.from` of a `Set` filled by `add`ing the elements of `s` in order:
   * each value the first time it is added, in insertion order.
   */
  function InsertionOrder<E(==)>(s: seq<E>): (d: seq<E>)
    ensures forall i :: 0 <= i < |d| ==> d[i] in s
    ensures forall i :: 0 <= i < |s| ==> s[i] in d
    ensures NoDuplicates(d)
    ensures |d| <= |s|
    decreases |s|
  {
    if s == [] then []
    else
      var prefix := InsertionOrder(s[..|s| - 1]);
      if s[|s| - 1] in prefix then prefix else prefix + [s[|s| - 1]]
  }

  /** Adding values that are all different keeps every one of them, in order. */
  lemma {:induction false} InsertionOrderOfDistinct<E>(s: seq<E>)
    requires NoDuplicates(s)
    ensures InsertionOrder(s) == s
    decreases |s|
  {
    if s != [] {
      var n := |s| - 1;
      assert NoDuplicates(s[..n]) by {
        assert forall j :: 0 <= j < n ==> s[..n][j] == s[j];
      }
      InsertionOrderOfDistinct(s[..n]);
      assert s == s[..n] + [s[n]];
    }
  }

  /** The insertion-ordered result keeps all of `s` exactly when it is as long as `s`. */
  lemma {:induction false} InsertionOrderFull<E>(s: seq<E>)
    ensures |InsertionOrder(s)| == |s| <==> InsertionOrder(s) == s
    decreases |s|
  {
    if s != [] {
      var n := |s| - 1;
      InsertionOrderFull(s[..n]);
      assert s == s[..n] + [s[n]];
    }
  }

  /** The number of `null` values in `s`. */
  function NullCount<T>(s: seq<JsValue<T>>): nat
    decreases |s|
  {
    if s == [] then 0 else NullCount(s[..|s| - 1]) + (if s[|s| - 1].JsNull? then 1 else 0)
  }

  lemma {:induction false} NullCountZero<T>(s: seq<JsValue<T>>)
    ensures NullCount(s) == 0 <==> JsNull !in s
    decreases |s|
  {
    if s != [] {
      var n := |s| - 1;
      NullCountZero(s[..n]);
      assert s == s[..n] + [s[n]];
    }
  }

  /** No object occurs twice; only `null` may repeat. */
  ghost predicate ObjectsDistinct<T>(s: seq<JsValue<T>>)
  {
    forall i, j :: 0 <= i < j < |s| && s[i].JsObject? ==> s[i] != s[j]
  }

  /**
   * When only `null` can repeat, the `Set` merges the k >= 1 nulls into one
   * and keeps every object: the result is |s| - (k - 1) long.
   */
  lemma {:induction false} MergedNullsLength<T>(s: seq<JsValue<T>>)
    requires ObjectsDistinct(s)
    ensures |InsertionOrder(s)| == |s| - (if NullCount(s) == 0 then 0 else NullCount(s) - 1)
    decreases |s|
  {
    if s != [] {
      var n := |s| - 1;
      var prefix := s[..n];
      assert ObjectsDistinct(prefix) by {
        assert forall j :: 0 <= j < n ==> prefix[j] == s[j];
      }
      MergedNullsLength(prefix);
      NullCountZero(prefix);
      if s[n].JsObject? {
        forall j | 0 <= j < n
          ensures prefix[j] != s[n]
        {
          assert s[j].JsObject? ==> s[j] != s[n];
        }
        assert s[n] !in prefix;
      }
    }
  }

  /**
   * The loop of `postLoader` and `profileLoader`: one lookup per key, in key
   * order, each answer added to an insertion-ordered `Set`, which is returned
   * as an array. `queried` records the keys looked up, one storage call each.
   */
  method SequentialLookupBatch<T(==)>(ids: seq<Key>, lookup: Key -> Option<T>) returns (out: seq<JsValue<T>>, queried: seq<Key>)
    ensures queried == ids
    ensures out == InsertionOrder(LookupResults(ids, lookup))
  {
    var seen: seq<JsValue<T>> := [];
    queried := [];
    var i := 0;
    while i < |ids|
      invariant 0 <= i <= |ids|
      invariant queried == ids[..i]
      invariant seen == InsertionOrder(LookupResults(ids, lookup)[..i])
    {
      var found := lookup(ids[i]);
      queried := queried + [ids[i]];
      var v := if found.None? then JsNull else JsObject(i, found.value);
      if v !in seen {
        seen := seen + [v];
      }
      i := i + 1;
      assert LookupResults(ids, lookup)[..i][..i - 1] == LookupResults(ids, lookup)[..i - 1];
    }
    assert LookupResults(ids, lookup)[..i] == LookupResults(ids, lookup);
    out := seen;
  }

  /** `postLoader`: `findUnique` of each post id in turn, collected in a `Set`. */
  method PostLoader(ids: seq<Key>, findPost: Key -> Option<Post>) returns (out: seq<JsValue<Post>>, queried: seq<Key>)
    ensures queried == ids
    ensures out == InsertionOrder(LookupResults(ids, findPost))
  {
    out, queried := SequentialLookupBatch(ids, findPost);
  }

  /** `profileLoader`: `findUnique` of each profile id (with its member type) in turn, collected in a `Set`. */
  method ProfileLoader(ids: seq<Key>, findProfile: Key -> Option<ProfileWithMemberType>)
    returns (out: seq<JsValue<ProfileWithMemberType>>, queried: seq<Key>)
    ensures queried == ids
    ensures out == InsertionOrder(LookupResults(ids, findProfile))
  {
    out, queried := SequentialLookupBatch(ids, findProfile);
  }

  /** The number of requested keys for which the lookup finds nothing. */
  function MissingCount<T>(ids: seq<Key>, lookup: Key -> Option<T>): nat
  {
    NullCount(LookupResults(ids, lookup))
  }

  /** Objects from different calls are different objects. */
  lemma LookupResultsObjectsDistinct<T>(ids: seq<Key>, lookup: Key -> Option<T>)
    ensures ObjectsDistinct(LookupResults(ids, lookup))
  {
  }

  /**
   * With k >= 1 missing keys the sequential batch is |ids| - (k - 1) long:
   * the missing keys' nulls merge into one.
   */
  lemma SequentialBatchLength<T>(ids: seq<Key>, lookup: Key -> Option<T>)
    ensures |InsertionOrder(LookupResults(ids, lookup))| ==
              |ids| - (if MissingCount(ids, lookup) == 0 then 0 else MissingCount(ids, lookup) - 1)
  {
    LookupResultsObjectsDistinct(ids, lookup);
    MergedNullsLength(LookupResults(ids, lookup));
  }

  /**
   * The sequential batch lines up with its keys, slot i answering key i,
   * exactly when at most one key is missing.
   */
  lemma SequentialBatchAligned<T>(ids: seq<Key>, lookup: Key -> Option<T>)
    ensures InsertionOrder(LookupResults(ids, lookup)) == LookupResults(ids, lookup) <==>
              MissingCount(ids, lookup) <= 1
  {
    SequentialBatchLength(ids, lookup);
    InsertionOrderFull(LookupResults(ids, lookup));
  }

  /**
   * Corrected `postLoader`/`profileLoader`: push each answer onto an array
   * instead of adding it to a `Set`, so that slot i always answers key i.
   */
  method SequentialLookupAligned<T>(ids: seq<Key>, lookup: Key -> Option<T>) returns (out: seq<JsValue<T>>, queried: seq<Key>)
    ensures queried == ids
    ensures |out| == |ids|
    ensures forall i :: 0 <= i < |ids| ==>
              (out[i] == JsNull <==> lookup(ids[i]).None?) &&
              (out[i].JsObject? ==> Some(out[i].val) == lookup(ids[i]))
  {
    out := [];
    queried := [];
    var i := 0;
    while i < |ids|
      invariant 0 <= i <= |ids|
      invariant queried == ids[..i]
      invariant out == LookupResults(ids, lookup)[..i]
    {
      var found := lookup(ids[i]);
      queried := queried + [ids[i]];
      out := out + [if found.None? then JsNull else JsObject(i, found.value)];
      i := i + 1;
    }
    assert LookupResults(ids, lookup)[..i] == LookupResults(ids, lookup);
  }

  /** `userByIdLoader`: each key's user, or `null`. */
  method UserByIdLoader(userIds: seq<Key>, users: seq<User>) returns (out: seq<Lookup<User>>)
    ensures out == Demux.ByKey(userIds, users, UserIdOf, Null)
  {
    var userById := Demux.IndexByKey(users, UserIdOf);
    out := seq(|userIds|, i requires 0 <= i < |userIds| =>
      if userIds[i] in userById then Found(userById[userIds[i]]) else Null);
    assert forall i :: 0 <= i < |userIds| ==>
      Demux.Get(userById, userIds[i]) == Demux.LastWithKey(users, UserIdOf, userIds[i]);
  }

  /**
   * `subscribersByAuthorLoader`: the subscriber of every returned subscription
   * row, in storage order, whatever keys were requested.
   */
  function SubscribersByAuthorLoader(authorIds: seq<Key>, subscriptions: seq<Subscription>): (out: seq<User>)
    ensures |out| == |subscriptions|
    ensures forall j :: 0 <= j < |subscriptions| ==> out[j] == subscriptions[j].subscriber
  {
    seq(|subscriptions|, j requires 0 <= j < |subscriptions| => subscriptions[j].subscriber)
  }

  /**
   * With distinct keys and every row's author requested, the ungrouped output
   * is exactly as long as all the per-author buckets together.
   */
  lemma SubscribersByAuthorFlattens(authorIds: seq<Key>, subscriptions: seq<Subscription>)
    requires Demux.Distinct(authorIds) && Demux.KeysRequested(subscriptions, AuthorIdOf, authorIds)
    ensures |SubscribersByAuthorLoader(authorIds, subscriptions)| ==
              Demux.TotalSize(Demux.Grouped(authorIds, subscriptions, AuthorIdOf, SubscriberOf))
  {
    Demux.EveryRowInOneBucket(authorIds, subscriptions, AuthorIdOf, SubscriberOf);
  }

  /**
   * Corrected `subscribersByAuthorLoader`: group the rows by `authorId`, as
   * `subscribedToUserLoader` does, so that slot i holds the subscribers of
   * author i.
   */
  method SubscribersByAuthorGrouped(authorIds: seq<Key>, subscriptions: seq<Subscription>) returns (out: seq<seq<User>>)
    ensures out == Demux.Grouped(authorIds, subscriptions, AuthorIdOf, SubscriberOf)
    ensures |out| == |authorIds|
    ensures forall i :: 0 <= i < |authorIds| ==>
              forall u :: u in out[i] <==>
                exists j :: 0 <= j < |subscriptions| && subscriptions[j].authorId == authorIds[i] &&
                            subscriptions[j].subscriber == u
  {
    out := DataLoaders.SubscribedToUserLoader(authorIds, subscriptions);
    forall i, u | 0 <= i < |authorIds|
      ensures u in out[i] <==>
                exists j :: 0 <= j < |subscriptions| && subscriptions[j].authorId == authorIds[i] &&
                            subscriptions[j].subscriber == u
    {
      Demux.MatchingMembers(subscriptions, AuthorIdOf, SubscriberOf, authorIds[i], u);
    }
  }

  /** Why a load fails: the batch function's output did not line up with its keys. */
  datatype LoadError = LengthMismatch(keys: nat, values: nat)

  /**
   * DataLoader's delivery of slot i of a batch: the load of `keys[i]`
   * resolves to `values[i]` when the batch function kept the length of its
   * key list, and every load of the batch fails otherwise.
   */
  function Deliver<V>(keys: seq<Key>, values: seq<V>, i: nat): (r: Result<V, LoadError>)
    requires i < |keys|
    ensures r.Success? <==> |values| == |keys|
    ensures r.Success? ==> r.value == values[i]
    ensures r.Failure? ==> r.error == LengthMismatch(|keys|, |values|)
  {
    if |values| == |keys| then Success(values[i]) else Failure(LengthMismatch(|keys|, |values|))
  }

  /**
   * `fetchPostById`: the load of `batch[i]` through `postLoader`, in a batch
   * `batch`. It resolves exactly when at most one key of the batch is missing,
   * and then to what the lookup of `batch[i]` answered.
   */
  function FetchPostById(batch: seq<Key>, i: nat, findPost: Key -> Option<Post>): (r: Result<JsValue<Post>, LoadError>)
    requires i < |batch|
    ensures r.Success? <==> MissingCount(batch, findPost) <= 1
    ensures r.Success? ==> r.value == LookupResults(batch, findPost)[i]
  {
    FetchByIdThroughSet(batch, i, findPost);
    Deliver(batch, InsertionOrder(LookupResults(batch, findPost)), i)
  }

  /**
   * `fetchProfileById`: the load of `batch[i]` through `profileLoader`, in a
   * batch `batch`. It resolves exactly when at most one key of the batch is
   * missing, and then to what the lookup of `batch[i]` answered.
   */
  function FetchProfileById(batch: seq<Key>, i: nat, findProfile: Key -> Option<ProfileWithMemberType>)
    : (r: Result<JsValue<ProfileWithMemberType>, LoadError>)
    requires i < |batch|
    ensures r.Success? <==> MissingCount(batch, findProfile) <= 1
    ensures r.Success? ==> r.value == LookupResults(batch, findProfile)[i]
  {
    FetchByIdThroughSet(batch, i, findProfile);
    Deliver(batch, InsertionOrder(LookupResults(batch, findProfile)), i)
  }

  /**
   * `fetchUserById`: the load of `batch[i]` through `userByIdLoader`, given
   * the rows storage returned. It always resolves, to the loader's slot for
   * that key.
   */
  function FetchUserById(batch: seq<Key>, i: nat, users: seq<User>): (r: Result<Lookup<User>, LoadError>)
    requires i < |batch|
    ensures r == Success(Demux.ByKey(batch, users, UserIdOf, Null)[i])
  {
    Deliver(batch, Demux.ByKey(batch, users, UserIdOf, Null), i)
  }

  /**
   * A post or profile load succeeds, with that key's lookup answer, exactly
   * when at most one key of its batch is missing; otherwise it fails even if
   * its own row exists.
   */
  lemma FetchByIdThroughSet<T>(batch: seq<Key>, i: nat, lookup: Key -> Option<T>)
    requires i < |batch|
    ensures var r := Deliver(batch, InsertionOrder(LookupResults(batch, lookup)), i);
            && (r.Success? <==> MissingCount(batch, lookup) <= 1)
            && (r.Success? ==> (r.value == JsNull <==> lookup(batch[i]).None?))
            && (r.Success? && r.value.JsObject? ==> Some(r.value.val) == lookup(batch[i]))
            && (r.Success? ==> r.value == LookupResults(batch, lookup)[i])
  {
    SequentialBatchAligned(batch, lookup);
    InsertionOrderFull(LookupResults(batch, lookup));
  }

  /** `fetchPostById` and `fetchProfileById` answer the loader's slot for the key. */
  lemma FetchPostAndProfileById(batch: seq<Key>, i: nat, findPost: Key -> Option<Post>,
                                findProfile: Key -> Option<ProfileWithMemberType>)
    requires i < |batch|
    ensures FetchPostById(batch, i, findPost).Success? <==> MissingCount(batch, findPost) <= 1
    ensures FetchPostById(batch, i, findPost).Success? ==>
              (FetchPostById(batch, i, findPost).value == JsNull <==> findPost(batch[i]).None?)
    ensures FetchPostById(batch, i, findPost).Success? && FetchPostById(batch, i, findPost).value.JsObject? ==>
              Some(FetchPostById(batch, i, findPost).value.val) == findPost(batch[i])
    ensures FetchProfileById(batch, i, findProfile).Success? <==> MissingCount(batch, findProfile) <= 1
    ensures FetchProfileById(batch, i, findProfile).Success? ==>
              (FetchProfileById(batch, i, findProfile).value == JsNull <==> findProfile(batch[i]).None?)
    ensures FetchProfileById(batch, i, findProfile).Success? && FetchProfileById(batch, i, findProfile).value.JsObject? ==>
              Some(FetchProfileById(batch, i, findProfile).value.val) == findProfile(batch[i])
  {
  }

  /** A post loaded alone in its batch always resolves to its lookup answer. */
  lemma FetchPostByIdAlone(k: Key, findPost: Key -> Option<Post>)
    ensures FetchPostById([k], 0, findPost) ==
              Success(match findPost(k) case None => JsNull case Some(p) => JsObject(0, p))
  {
  }

  /**
   * `fetchUserById` always resolves: to the last returned user whose id is
   * the key, or to `null` when there is none.
   */
  lemma FetchUserByIdResolves(batch: seq<Key>, i: nat, users: seq<User>)
    requires i < |batch|
    ensures FetchUserById(batch, i, users).Success?
    ensures FetchUserById(batch, i, users).value == Null <==>
              forall j :: 0 <= j < |users| ==> users[j].id != batch[i]
    ensures FetchUserById(batch, i, users).value.Found? ==>
              exists j :: Demux.IsLastWithKey(users, UserIdOf, batch[i], j) &&
                          FetchUserById(batch, i, users).value.value == users[j]
  {
    Demux.ByKeyAt(batch, users, UserIdOf, Null, i);
  }

  /**
   * Finding, `postLoader` as written: with posts "p1" and "p2" missing and
   * "p3" present, the batch answers two slots for three keys, and the load of
   * "p3" fails although its post exists.
   */
  lemma TwoMissingPostsShiftTheBatch(post: Post)
    ensures var findPost := (k: Key) => if k == "p3" then Some(post) else None;
            && InsertionOrder(LookupResults(["p1", "p2", "p3"], findPost)) == [JsNull, JsObject(2, post)]
            && FetchPostById(["p1", "p2", "p3"], 2, findPost) == Failure(LengthMismatch(3, 2))
  {
  }

  /**
   * Finding, `subscribersByAuthorLoader` as written: one author with two
   * subscribers yields two values for one key, so a load of that author
   * through this loader would fail. (The loader is not part of the returned
   * bundle, so the defect is latent.)
   */
  lemma TwoSubscribersMisalignTheBatch(author: User, s1: User, s2: User)
    ensures var subscriptions := [Subscription(s1.id, author.id, s1, author), Subscription(s2.id, author.id, s2, author)];
            && SubscribersByAuthorLoader([author.id], subscriptions) == [s1, s2]
            && Deliver([author.id], SubscribersByAuthorLoader([author.id], subscriptions), 0) == Failure(LengthMismatch(1, 2))
  {
  }

  /**
   * Finding, `subscribersByAuthorLoader` as written, the silent case: for
   * authors a and b, with two subscription rows for a and none for b, the
   * output has as many values as keys, so both loads would succeed, and b's
   * load would deliver a's second subscriber, where the grouping gives b `[]`.
   */
  lemma TwoAuthorsMisdeliver(a: User, b: User, s1: User, s2: User)
    requires a.id != b.id
    ensures var subscriptions := [Subscription(s1.id, a.id, s1, a), Subscription(s2.id, a.id, s2, a)];
            && Deliver([a.id, b.id], SubscribersByAuthorLoader([a.id, b.id], subscriptions), 0) == Success(s1)
            && Deliver([a.id, b.id], SubscribersByAuthorLoader([a.id, b.id], subscriptions), 1) == Success(s2)
            && Demux.Grouped([a.id, b.id], subscriptions, AuthorIdOf, SubscriberOf)[1] == []
  {
    var subscriptions := [Subscription(s1.id, a.id, s1, a), Subscription(s2.id, a.id, s2, a)];
    Demux.MatchingEmpty(subscriptions, AuthorIdOf, SubscriberOf, b.id);
  }

  /**
   * Finding, the silent case with one row per author: when storage returns
   * b's row before a's, a's load delivers b's subscriber and b's load a's.
   */
  lemma ReorderedRowsMisdeliver(a: User, b: User, sa: User, sb: User)
    requires a.id != b.id && sa != sb
    ensures var subscriptions := [Subscription(sb.id, b.id, sb, b), Subscription(sa.id, a.id, sa, a)];
            && Deliver([a.id, b.id], SubscribersByAuthorLoader([a.id, b.id], subscriptions), 0) == Success(sb)
            && Deliver([a.id, b.id], SubscribersByAuthorLoader([a.id, b.id], subscriptions), 1) == Success(sa)
            && Demux.Grouped([a.id, b.id], subscriptions, AuthorIdOf, SubscriberOf) == [[sa], [sb]]
  {
    var subscriptions := [Subscription(sb.id, b.id, sb, b), Subscription(sa.id, a.id, sa, a)];
    assert subscriptions[..1] == [subscriptions[0]];
    assert subscriptions[..1][..0] == [];
    assert Demux.Matching(subscriptions[..1], AuthorIdOf, SubscriberOf, a.id) == [];
    assert Demux.Matching(subscriptions[..1], AuthorIdOf, SubscriberOf, b.id) == [sb];
    assert Demux.Matching(subscriptions, AuthorIdOf, SubscriberOf, a.id) == [sa];
    assert Demux.Matching(subscriptions, AuthorIdOf, SubscriberOf, b.id) == [sb];
  }

  /**
   * The corrected grouping for the input of TwoSubscribersMisalignTheBatch answers one slot, holding
   * both subscribers in storage order.
   */
  lemma TwoSubscribersGrouped(author: User, s1: User, s2: User)
    ensures var subscriptions := [Subscription(s1.id, author.id, s1, author), Subscription(s2.id, author.id, s2, author)];
            Demux.Grouped([author.id], subscriptions, AuthorIdOf, SubscriberOf) == [[s1, s2]]
  {
    var subscriptions := [Subscription(s1.id, author.id, s1, author), Subscription(s2.id, author.id, s2, author)];
    assert subscriptions[..1] == [subscriptions[0]];
    assert subscriptions[..1][..0] == [];
    assert Demux.Matching(subscriptions[..1], AuthorIdOf, SubscriberOf, author.id) == [s1];
    assert Demux.Matching(subscriptions, AuthorIdOf, SubscriberOf, author.id) == [s1, s2];
  }
}
