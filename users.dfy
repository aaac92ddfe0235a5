/** The list of user profiles (`tracker_users`) and its two updates,
    `createUser` and `deleteUser`. */
module Users {
  import opened Text

  predicate NoDuplicates(names: seq<string>)
  {
    forall i, j :: 0 <= i < j < |names| ==> names[i] != names[j]
  }

  /** A name as `createUser` stores it: trimmed and not empty. */
  predicate WellFormedName(name: string)
  {
    name != "" && Trimmed(name)
  }

  /** `users.filter(u => u !== user)`. */
  function Without(names: seq<string>, user: string): (r: seq<string>)
    ensures |r| <= |names|
    ensures forall n :: n in r <==> n in names && n != user
  {
    if names == [] then []
    else
      assert forall n :: n in names <==> n == names[0] || n in names[1..];
      if names[0] == user then Without(names[1..], user) else [names[0]] + Without(names[1..], user)
  }

  /** The filter keeps the remaining names in their order: it works
      piecewise on any split of the list. */
  lemma {:induction false} WithoutConcat(a: seq<string>, b: seq<string>, user: string)
    ensures Without(a + b, user) == Without(a, user) + Without(b, user)
  {
    if a == [] {
      assert a + b == b;
    } else {
      assert (a + b)[0] == a[0] && (a + b)[1..] == a[1..] + b;
      WithoutConcat(a[1..], b, user);
    }
  }

  /** Filtering keeps a list free of duplicates. */
  lemma {:induction false} WithoutKeepsDistinct(names: seq<string>, user: string)
    requires NoDuplicates(names)
    ensures NoDuplicates(Without(names, user))
  {
    if names != [] {
      WithoutKeepsDistinct(names[1..], user);
      var r := Without(names[1..], user);
      if names[0] != user {
        forall j | 0 <= j < |r| ensures names[0] != r[j] {
          assert r[j] in names[1..];
        }
      }
    }
  }

  /** Creating a new user and deleting them again restores the list. */
  lemma {:induction false} CreateThenDeleteUser(names: seq<string>, name: string)
    requires name !in names
    ensures Without(names + [name], name) == names
  {
    if names == [] {
      assert [] + [name] == [name];
      assert Without([name], name) == Without([name][1..], name);
    } else {
      assert (names + [name])[0] == names[0];
      assert (names + [name])[1..] == names[1..] + [name];
      CreateThenDeleteUser(names[1..], name);
      assert names == [names[0]] + names[1..];
    }
  }

  /** Adding a well-formed name not yet listed keeps the list valid. */
  lemma AppendKeepsWellFormed(names: seq<string>, name: string)
    requires NoDuplicates(names) && forall i :: 0 <= i < |names| ==> WellFormedName(names[i])
    requires WellFormedName(name) && name !in names
    ensures var t := names + [name];
      NoDuplicates(t) && forall i :: 0 <= i < |t| ==> WellFormedName(t[i])
  {
    var t := names + [name];
    assert forall i :: 0 <= i < |names| ==> t[i] == names[i];
  }

  class UserList {
    /** The stored user names, in creation order. */
    var names: seq<string>
    /** The text of the new-user input box. */
    var input: string

    ghost predicate Valid()
      reads this
    {
      NoDuplicates(names) && forall i :: 0 <= i < |names| ==> WellFormedName(names[i])
    }

    constructor (stored: seq<string>)
      requires NoDuplicates(stored) && forall i :: 0 <= i < |stored| ==> WellFormedName(stored[i])
      ensures Valid() && names == stored && input == ""
    {
      names := stored;
      input := "";
    }

    /** `createUser`: add the trimmed input unless it is empty or already
        listed; the input box is cleared only when a name was added. */
    method CreateUser()
      requires Valid()
      modifies this
      ensures Valid()
      ensures Trim(old(input)) == "" || Trim(old(input)) in old(names) ==>
        names == old(names) && input == old(input)
      ensures Trim(old(input)) != "" && Trim(old(input)) !in old(names) ==>
        names == old(names) + [Trim(old(input))] && input == ""
    {
      var name := Trim(input);
      if name == "" {
        return;
      }
      if name !in names {
        AppendKeepsWellFormed(names, name);
        names := names + [name];
        input := "";
      }
    }

    /** `deleteUser`, with the answer to its `confirm` dialog as `confirmed`. */
    method DeleteUser(user: string, confirmed: bool)
      requires Valid()
      modifies this`names
      ensures Valid()
      ensures names == if confirmed then Without(old(names), user) else old(names)
    {
      if !confirmed {
        return;
      }
      WithoutKeepsDistinct(names, user);
      var r := Without(names, user);
      assert forall i :: 0 <= i < |r| ==> r[i] in names;
      names := r;
    }
  }
}
