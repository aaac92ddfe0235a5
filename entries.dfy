/** The stored records of the day tracker: the time slots, the categories
    with their emoji lists (`CATEGORIES`), the entry record, and the two
    lookups the store performs on a collection (`findIndex`/`find` by id and
    the `filter` that deletes by id). */
module Entries {

  datatype Option<T> = None | Some(value: T)

  datatype TimeOfDay = Morning | Noon | Evening | Night

  /** The `timeOrder` table of the feed sort. */
  function Ordinal(t: TimeOfDay): (n: nat)
    ensures n < 4
  {
    match t
    case Morning => 0
    case Noon => 1
    case Evening => 2
    case Night => 3
  }

  /** Distinct slots have distinct ordinals. */
  lemma OrdinalInjective(t: TimeOfDay, u: TimeOfDay)
    ensures Ordinal(t) == Ordinal(u) ==> t == u
  {
    match t
    case Morning =>
    case Noon =>
    case Evening =>
    case Night =>
  }

  datatype Category = Eating | Toilette | Sports | Mood | Sleeping

  /** `CATEGORIES[c]`: the emoji offered for a category, in display order. */
  function Emojis(c: Category): (list: seq<string>)
    ensures |list| > 0
    ensures forall i :: 0 <= i < |list| ==> list[i] != ""
  {
    match c
    case Eating => ["🥗", "🍔", "🍎", "☕", "🥤", "🍫"]
    case Toilette => ["💧", "💩", "🚽"]
    case Sports => ["🏃", "🏋️", "🧘", "🚴", "🏊"]
    case Mood => ["😊", "😐", "😢", "😡", "😴", "🤩"]
    case Sleeping => ["😴", "🛌", "🌙"]
  }

  /** One logged record. `createdAt` and `updatedAt` are millisecond
      timestamps; a record that was never edited has no `updatedAt`. */
  datatype Entry = Entry(
    id: string,
    dateStr: string,
    timeOfDay: TimeOfDay,
    category: Category,
    emoji: string,
    content: string,
    createdAt: int,
    updatedAt: Option<int>)

  /** No two records of the collection share an id. */
  predicate UniqueIds(s: seq<Entry>)
  {
    forall i, j :: 0 <= i < j < |s| ==> s[i].id != s[j].id
  }

  /** No record of the collection carries `id`. */
  predicate IdUnused(s: seq<Entry>, id: string)
  {
    forall i :: 0 <= i < |s| ==> s[i].id != id
  }

  /** `data.findIndex(e => e.id === id)`: the first position holding `id`,
      or `None` for -1. `data.find` is the record at that position. */
  function FindIndex(s: seq<Entry>, id: string): (r: Option<nat>)
    ensures r.Some? ==> r.value < |s| && s[r.value].id == id && IdUnused(s[..r.value], id)
    ensures r.None? ==> IdUnused(s, id)
  {
    if s == [] then None
    else if s[0].id == id then Some(0)
    else match FindIndex(s[1..], id)
      case None => None
      case Some(k) =>
        assert s[..k + 1] == [s[0]] + s[1..][..k];
        Some(k + 1)
  }

  /** The contract of `FindIndex` determines it: the first position
      holding `id` is the one it returns. */
  lemma {:induction false} FindIndexIs(s: seq<Entry>, id: string, k: nat)
    requires k < |s| && s[k].id == id && IdUnused(s[..k], id)
    ensures FindIndex(s, id) == Some(k)
  {
    if k > 0 {
      assert s[..k][0] == s[0];
      assert s[1..][..k - 1] == s[..k][1..];
      FindIndexIs(s[1..], id, k - 1);
    }
  }

  /** Appending a record with an unused id keeps the ids unique. */
  lemma AppendKeepsUnique(s: seq<Entry>, e: Entry)
    requires UniqueIds(s) && IdUnused(s, e.id)
    ensures UniqueIds(s + [e])
  {
    var t := s + [e];
    forall i, j | 0 <= i < j < |t| ensures t[i].id != t[j].id {
      assert t[i] == s[i];
    }
  }

  /** Replacing a record by one with the same id keeps the ids unique. */
  lemma ReplaceKeepsUnique(s: seq<Entry>, i: nat, e: Entry)
    requires UniqueIds(s) && i < |s| && e.id == s[i].id
    ensures UniqueIds(s[i := e])
  {
    var t := s[i := e];
    assert forall k :: 0 <= k < |t| ==> t[k].id == s[k].id;
  }

  /** `data.filter(e => e.id !== id)`. */
  function Remove(s: seq<Entry>, id: string): (r: seq<Entry>)
    ensures |r| <= |s|
    ensures forall e :: e in r <==> e in s && e.id != id
  {
    if s == [] then []
    else
      assert forall e :: e in s <==> e == s[0] || e in s[1..];
      if s[0].id == id then Remove(s[1..], id) else [s[0]] + Remove(s[1..], id)
  }

  /** The filter keeps the surviving records in their original order: it
      works piecewise on any split of the collection. */
  lemma {:induction false} RemoveConcat(s: seq<Entry>, t: seq<Entry>, id: string)
    ensures Remove(s + t, id) == Remove(s, id) + Remove(t, id)
  {
    if s == [] {
      assert s + t == t;
    } else {
      assert (s + t)[0] == s[0] && (s + t)[1..] == s[1..] + t;
      RemoveConcat(s[1..], t, id);
    }
  }

  /** Deleting an id that no record carries changes nothing. */
  lemma {:induction false} RemoveAbsent(s: seq<Entry>, id: string)
    requires IdUnused(s, id)
    ensures Remove(s, id) == s
  {
    if s != [] {
      RemoveAbsent(s[1..], id);
    }
  }

  /** Repeating a delete changes nothing. */
  lemma RemoveIdempotent(s: seq<Entry>, id: string)
    ensures Remove(Remove(s, id), id) == Remove(s, id)
  {
    var r := Remove(s, id);
    assert forall i :: 0 <= i < |r| ==> r[i] in r;
    RemoveAbsent(r, id);
  }

  /** In a collection with unique ids, deleting a present id removes exactly
      that one record and leaves the others in order. */
  lemma RemoveAt(s: seq<Entry>, id: string, i: nat)
    requires UniqueIds(s) && FindIndex(s, id) == Some(i)
    ensures Remove(s, id) == s[..i] + s[i + 1..]
    ensures |Remove(s, id)| == |s| - 1
  {
    assert s == s[..i] + ([s[i]] + s[i + 1..]);
    RemoveConcat(s[..i], [s[i]] + s[i + 1..], id);
    RemoveConcat([s[i]], s[i + 1..], id);
    RemoveAbsent(s[..i], id);
    RemoveAbsent(s[i + 1..], id);
  }

  /** Deleting keeps the ids unique. */
  lemma {:induction false} RemoveKeepsUnique(s: seq<Entry>, id: string)
    requires UniqueIds(s)
    ensures UniqueIds(Remove(s, id))
  {
    if s != [] {
      RemoveKeepsUnique(s[1..], id);
      var r := Remove(s[1..], id);
      if s[0].id != id {
        forall j | 0 <= j < |r| ensures s[0].id != r[j].id {
          assert r[j] in s[1..];
        }
      }
    }
  }
}
