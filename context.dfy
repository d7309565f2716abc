/**
 * The lookup tables of configured users (src/context.rs): by Advent of Code
 * id and by Matrix user id, built from the configured list of users.
 */
module Context {
  import opened Wrappers
  import opened Models

  /** A configured user: an optional Advent of Code id, Matrix user and repository. */
  datatype User = User(aoc: Option<nat>, matrix: Option<string>, repo: Option<string>)

  /**
   * Collecting `(key, item)` pairs into a `HashMap`, skipping items without a
   * key. A later item with the same key replaces an earlier one.
   */
  function Index<T, K(==,!new)>(items: seq<T>, key: T -> Option<K>): (m: map<K, T>)
    ensures forall k :: k in m <==> exists i :: 0 <= i < |items| && key(items[i]) == Some(k)
    ensures forall k :: k in m ==> key(m[k]) == Some(k) && m[k] in items
  {
    if items == [] then map[]
    else
      var init := items[..|items| - 1];
      var last := items[|items| - 1];
      var m := Index(init, key);
      assert forall i :: 0 <= i < |init| ==> init[i] == items[i];
      match key(last)
      case Some(k) => m[k := last]
      case None => m
  }

  datatype ContextUsers = ContextUsers(byAoc: map<nat, User>, byMatrix: map<string, User>)

  function AocKey(): User -> Option<nat> {
    (u: User) => u.aoc
  }

  function MatrixKey(): User -> Option<string> {
    (u: User) => u.matrix
  }

  /** `ContextUsers::from_config` */
  function FromConfig(users: seq<User>): (c: ContextUsers)
    ensures forall k :: k in c.byAoc <==> exists i :: 0 <= i < |users| && users[i].aoc == Some(k)
    ensures forall k :: k in c.byAoc ==> c.byAoc[k].aoc == Some(k)
    ensures forall k :: k in c.byMatrix <==> exists i :: 0 <= i < |users| && users[i].matrix == Some(k)
    ensures forall k :: k in c.byMatrix ==> c.byMatrix[k].matrix == Some(k)
  {
    ContextUsers(Index(users, AocKey()), Index(users, MatrixKey()))
  }

  /** The item a key finds is the last one carrying that key. */
  lemma {:induction false} IndexFindsLast<T, K(!new)>(items: seq<T>, key: T -> Option<K>, i: nat)
    requires i < |items| && key(items[i]).Some?
    requires forall j :: i < j < |items| ==> key(items[j]) != key(items[i])
    ensures Index(items, key)[key(items[i]).value] == items[i]
  {
    if i < |items| - 1 {
      var init := items[..|items| - 1];
      assert forall j :: 0 <= j < |init| ==> init[j] == items[j];
      IndexFindsLast(init, key, i);
    }
  }

  /**
   * A configured user with an id is found under that id unless a later user
   * claims the same id, and whatever a table returns carries the id it was
   * looked up by.
   */
  lemma FromConfigFindsUsers(users: seq<User>, i: nat)
    requires i < |users|
    ensures var c := FromConfig(users);
      && (users[i].aoc.Some? ==> users[i].aoc.value in c.byAoc)
      && (users[i].aoc.Some? && (forall j :: i < j < |users| ==> users[j].aoc != users[i].aoc) ==>
            c.byAoc[users[i].aoc.value] == users[i])
      && (users[i].matrix.Some? ==> users[i].matrix.value in c.byMatrix)
      && (users[i].matrix.Some? && (forall j :: i < j < |users| ==> users[j].matrix != users[i].matrix) ==>
            c.byMatrix[users[i].matrix.value] == users[i])
  {
    if users[i].aoc.Some? && (forall j :: i < j < |users| ==> users[j].aoc != users[i].aoc) {
      IndexFindsLast(users, AocKey(), i);
    }
    if users[i].matrix.Some? && (forall j :: i < j < |users| ==> users[j].matrix != users[i].matrix) {
      IndexFindsLast(users, MatrixKey(), i);
    }
  }

  /**
   * The Matrix link and repository shown for the member with Advent of Code
   * id `id`: those of the configured user found under that id, each "" when
   * absent.
   */
  function LinkedColumns(byAoc: map<nat, User>, id: nat): (string, string) {
    if id !in byAoc then ("", "")
    else
      var u := byAoc[id];
      (if u.matrix.Some? then MatrixToUri(u.matrix.value) else "",
       if u.repo.Some? then u.repo.value else "")
  }

  /**
   * A member shows the Matrix link and repository of the configured user with
   * its id, provided no later user in the configuration claims the same id.
   */
  lemma ColumnsOfConfiguredUser(users: seq<User>, i: nat, id: nat)
    requires i < |users| && users[i].aoc == Some(id)
    requires forall j :: i < j < |users| ==> users[j].aoc != users[i].aoc
    ensures LinkedColumns(FromConfig(users).byAoc, id) ==
      (if users[i].matrix.Some? then MatrixToUri(users[i].matrix.value) else "",
       if users[i].repo.Some? then users[i].repo.value else "")
  {
    FromConfigFindsUsers(users, i);
  }

  /** A member no configured user claims shows neither a Matrix link nor a repository. */
  lemma ColumnsOfUnclaimedMember(users: seq<User>, id: nat)
    requires forall j :: 0 <= j < |users| ==> users[j].aoc != Some(id)
    ensures LinkedColumns(FromConfig(users).byAoc, id) == ("", "")
  {
  }
}
