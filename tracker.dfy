/** The page's `state` object, the active user's stored collection and the
    text of the note box, with the operations that change them: saving,
    editing, cancelling, deleting, the emoji normalisation of
    `renderEmojiOptions`, the selection handlers, and the feed walk of
    `loadEntries`. */
module Tracker {
  import opened Text
  import opened Entries
  import opened Feed

  /** The emoji `renderEmojiOptions` leaves selected for category `cat`:
      outside an edit a selection that is not on the category's list snaps
      to the list's first emoji; during an edit it is left alone. */
  function Normalised(emoji: string, cat: Category, editing: bool): (r: string)
    ensures !editing ==> r in Emojis(cat)
    ensures editing || emoji in Emojis(cat) ==> r == emoji
    ensures r == emoji || r == Emojis(cat)[0]
  {
    if !editing && emoji !in Emojis(cat) then Emojis(cat)[0] else emoji
  }

  /** Rendering the options twice selects the same emoji as rendering once. */
  lemma NormalisedIdempotent(emoji: string, cat: Category, editing: bool)
    ensures Normalised(Normalised(emoji, cat, editing), cat, editing) == Normalised(emoji, cat, editing)
  {
  }

  /** 😴 is on both the Mood and the Sleeping list, so switching between
      those categories keeps it; a category without it snaps to its first emoji. */
  lemma SharedEmojiSurvives()
    ensures Normalised("😴", Sleeping, false) == "😴"
    ensures Normalised("😴", Mood, false) == "😴"
    ensures Normalised("😴", Eating, false) == "🥗"
  {
    assert Emojis(Sleeping)[0] == "😴";
    assert Emojis(Mood)[4] == "😴";
  }

  /** A create followed by deleting the new id restores the collection. */
  lemma CreateThenDelete(s: seq<Entry>, e: Entry)
    requires IdUnused(s, e.id)
    ensures Remove(s + [e], e.id) == s
  {
    RemoveConcat(s, [e], e.id);
    RemoveAbsent(s, e.id);
    assert Remove([e], e.id) == Remove([], e.id);
  }

  /** An update leaves the record findable at the same position. */
  lemma UpdateKeepsPosition(s: seq<Entry>, id: string, i: nat, e: Entry)
    requires FindIndex(s, id) == Some(i) && e.id == id
    ensures FindIndex(s[i := e], id) == Some(i)
  {
    var t := s[i := e];
    assert t[..i] == s[..i];
    FindIndexIs(t, id, i);
  }

  class Session {
    /** The active user's stored records, in storage order. */
    var data: seq<Entry>
    var currentDate: string
    var selectedTime: TimeOfDay
    var selectedCategory: Category
    var selectedEmoji: string
    var editingId: Option<string>
    /** The text of the note box. */
    var entryText: string

    ghost predicate Valid()
      reads this
    {
      UniqueIds(data)
    }

    /** `if (state.editingId)`: an empty id counts as no edit. */
    predicate Editing()
      reads this
    {
      editingId.Some? && editingId.value != ""
    }

    /** The initial `state`, followed by the `renderEmojiOptions` call of `init`. */
    constructor (today: string, stored: seq<Entry>)
      requires UniqueIds(stored)
      ensures Valid() && data == stored
      ensures currentDate == today && selectedTime == Morning && selectedCategory == Eating
      ensures selectedEmoji == "🥗" && editingId == None && entryText == ""
    {
      data := stored;
      currentDate := today;
      selectedTime := Morning;
      selectedCategory := Eating;
      selectedEmoji := "";
      editingId := None;
      entryText := "";
      new;
      RenderEmojiOptions();
    }

    /** The selection logic of `renderEmojiOptions`. */
    method RenderEmojiOptions()
      modifies this`selectedEmoji
      ensures selectedEmoji == Normalised(old(selectedEmoji), selectedCategory, Editing())
    {
      var emojis := Emojis(selectedCategory);
      if !Editing() && selectedEmoji !in emojis {
        selectedEmoji := emojis[0];
      }
    }

    /** The date picker's change handler. */
    method PickDate(date: string)
      modifies this`currentDate
      ensures currentDate == date
    {
      currentDate := date;
    }

    /** A time button's click handler. */
    method SelectTime(t: TimeOfDay)
      modifies this`selectedTime
      ensures selectedTime == t
    {
      selectedTime := t;
    }

    /** A category button's click handler: select, then re-render the options. */
    method SelectCategory(c: Category)
      modifies this`selectedCategory, this`selectedEmoji
      ensures selectedCategory == c
      ensures selectedEmoji == Normalised(old(selectedEmoji), c, Editing())
    {
      selectedCategory := c;
      RenderEmojiOptions();
    }

    /** An emoji option's click handler; only the current category's emoji are on offer. */
    method PickEmoji(emoji: string)
      requires emoji in Emojis(selectedCategory)
      modifies this`selectedEmoji
      ensures selectedEmoji == emoji
    {
      selectedEmoji := emoji;
    }

    /** Typing into the note box. */
    method TypeNote(text: string)
      modifies this`entryText
      ensures entryText == text
    {
      entryText := text;
    }

    /** `saveEntry`. `newId` and `now` are the readings of `Date.now()` and
        `new Date()`; the creating branch needs an id no record holds. */
    method SaveEntry(newId: string, now: int)
      requires Valid()
      requires !Editing() ==> IdUnused(data, newId)
      modifies this
      ensures Valid()
      ensures currentDate == old(currentDate) && selectedTime == old(selectedTime)
      ensures selectedCategory == old(selectedCategory) && selectedEmoji == old(selectedEmoji)
      // nothing typed and no emoji: nothing happens
      ensures Trim(old(entryText)) == "" && old(selectedEmoji) == "" ==>
        data == old(data) && editingId == old(editingId) && entryText == old(entryText)
      // editing: replace the record in place (if it is still there) and end the edit
      ensures (Trim(old(entryText)) != "" || old(selectedEmoji) != "") && old(Editing()) ==>
        && editingId == None && entryText == ""
        && match FindIndex(old(data), old(editingId).value)
           case None => data == old(data)
           case Some(i) =>
             data == old(data)[i := old(data)[i].(
               dateStr := old(currentDate), timeOfDay := old(selectedTime),
               category := old(selectedCategory), emoji := old(selectedEmoji),
               content := Trim(old(entryText)), updatedAt := Some(now))]
      // not editing: append a new record
      ensures (Trim(old(entryText)) != "" || old(selectedEmoji) != "") && !old(Editing()) ==>
        && editingId == old(editingId) && entryText == ""
        && data == old(data) + [Entry(newId, old(currentDate), old(selectedTime),
             old(selectedCategory), old(selectedEmoji), Trim(old(entryText)), now, None)]
    {
      var text := Trim(entryText);
      if text == "" && selectedEmoji == "" {
        return;
      }
      if Editing() {
        var index := FindIndex(data, editingId.value);
        if index.Some? {
          var i := index.value;
          var updated := data[i].(
            dateStr := currentDate, timeOfDay := selectedTime,
            category := selectedCategory, emoji := selectedEmoji,
            content := text, updatedAt := Some(now));
          ReplaceKeepsUnique(data, i, updated);
          data := data[i := updated];
        }
        editingId := None;
      } else {
        var created := Entry(newId, currentDate, selectedTime, selectedCategory,
                             selectedEmoji, text, now, None);
        AppendKeepsUnique(data, created);
        data := data + [created];
      }
      entryText := "";
    }

    /** `editEntry`: seed the selection from the first record holding `id`. */
    method EditEntry(id: string)
      modifies this
      ensures old(Valid()) ==> Valid()
      ensures data == old(data)
      ensures FindIndex(data, id).None? ==>
        && currentDate == old(currentDate) && selectedTime == old(selectedTime)
        && selectedCategory == old(selectedCategory) && selectedEmoji == old(selectedEmoji)
        && editingId == old(editingId) && entryText == old(entryText)
      ensures FindIndex(data, id).Some? ==>
        var e := data[FindIndex(data, id).value];
        && editingId == Some(id) && currentDate == e.dateStr && selectedTime == e.timeOfDay
        && selectedCategory == e.category && entryText == e.content
        && selectedEmoji == Normalised(e.emoji, e.category, id != "")
      ensures FindIndex(data, id).Some? && id != "" ==> selectedEmoji == data[FindIndex(data, id).value].emoji
    {
      var index := FindIndex(data, id);
      if index.None? {
        return;
      }
      var e := data[index.value];
      editingId := Some(id);
      currentDate := e.dateStr;
      selectedTime := e.timeOfDay;
      selectedCategory := e.category;
      selectedEmoji := e.emoji;
      entryText := e.content;
      RenderEmojiOptions();
    }

    /** `cancelEdit`: back to today, Morning and Eating, with no edit. */
    method CancelEdit(today: string)
      modifies this
      ensures old(Valid()) ==> Valid()
      ensures data == old(data) && editingId == None && entryText == ""
      ensures currentDate == today && selectedTime == Morning && selectedCategory == Eating
      ensures selectedEmoji == Normalised(old(selectedEmoji), Eating, false)
      ensures selectedEmoji in Emojis(Eating)
    {
      editingId := None;
      entryText := "";
      currentDate := today;
      selectedTime := Morning;
      selectedCategory := Eating;
      RenderEmojiOptions();
    }

    /** `deleteEntry`, with the answer to its `confirm` dialog as `confirmed`. */
    method DeleteEntry(id: string, confirmed: bool)
      requires Valid()
      modifies this`data
      ensures Valid()
      ensures data == if confirmed then Remove(old(data), id) else old(data)
    {
      if !confirmed {
        return;
      }
      RemoveKeepsUnique(data, id);
      data := Remove(data, id);
    }

    /** `loadEntries`: sort a copy of the records, then walk it, emitting a
        header each time the date changes. */
    method LoadEntries(cal: Calendar) returns (view: View)
      ensures view == FeedView(data, cal)
    {
      var sorted := SortFeed(data);
      if |sorted| == 0 {
        return Placeholder(NoEntriesMessage);
      }
      var lines: seq<Line> := [];
      var current: Option<string> := None;
      var i := 0;
      while i < |sorted|
        invariant 0 <= i <= |sorted|
        invariant lines == Group(sorted[..i], cal)
        invariant current == if i == 0 then None else Some(sorted[i - 1].dateStr)
      {
        var e := sorted[i];
        assert sorted[..i + 1] == sorted[..i] + [e];
        GroupSnoc(sorted[..i], e, cal);
        if current != Some(e.dateStr) {
          current := Some(e.dateStr);
          lines := lines + [Header(Label(e.dateStr, cal))];
        }
        lines := lines + [Item(e)];
        i := i + 1;
      }
      assert sorted[..i] == sorted;
      view := Lines(lines);
    }
  }
}
