/** The local writings store: a list of writing records kept under the key
    "publishedWritings", a device user id kept under "syahi_user_id", and the
    same-tab notifications ("writingPublished", "writingUpdated") dispatched
    when the list is written. */
module Storage {
  import opened Types
  import opened JsText

  /** A notification dispatched on the window after the list is written. */
  datatype Event = WritingPublished | WritingUpdated(detail: Writing)

  /** What reading "publishedWritings" yields: the stored list, and the
      empty list when nothing usable is stored under the key. */
  function StoredList(slot: Option<seq<Writing>>): (ws: seq<Writing>)
    ensures slot.None? ==> ws == []
    ensures slot.Some? ==> ws == slot.value
  {
    match slot
    case None => []
    case Some(v) => v
  }

  /** `findIndex` by id: the first position holding that id, or -1. */
  function FindIndex(ws: seq<Writing>, id: string): (k: int)
    ensures -1 <= k < |ws|
    ensures k >= 0 ==> ws[k].id == id && forall j :: 0 <= j < k ==> ws[j].id != id
    ensures k == -1 <==> forall j :: 0 <= j < |ws| ==> ws[j].id != id
  {
    if |ws| == 0 then -1
    else if ws[0].id == id then 0
    else
      var k := FindIndex(ws[1..], id);
      if k == -1 then -1 else k + 1
  }

  /** `find` by id: the first record holding that id, if there is one. */
  function Find(ws: seq<Writing>, id: string): (r: Option<Writing>)
    ensures r.None? <==> forall j :: 0 <= j < |ws| ==> ws[j].id != id
    ensures r.Some? ==> r.value.id == id && r.value == ws[FindIndex(ws, id)]
  {
    if |ws| == 0 then None
    else if ws[0].id == id then Some(ws[0])
    else Find(ws[1..], id)
  }

  /** Overwriting the first record with u's id: the length and every other
      position stay as they were, and both lookups by that id now land on u,
      at the same position as before. */
  lemma ReplaceFirst(ws: seq<Writing>, u: Writing)
    requires FindIndex(ws, u.id) >= 0
    ensures var k := FindIndex(ws, u.id);
      var r := ws[k := u];
      && |r| == |ws|
      && r[k] == u
      && (forall j :: 0 <= j < |ws| && j != k ==> r[j] == ws[j])
      && FindIndex(r, u.id) == k
      && Find(r, u.id) == Some(u)
  {
    var k := FindIndex(ws, u.id);
    var r := ws[k := u];
    assert r[k].id == u.id;
    assert forall j :: 0 <= j < k ==> r[j].id != u.id;
  }

  /** A record placed at the head is the one every lookup by its id finds,
      whatever follows it. */
  lemma FindAfterPrepend(w: Writing, ws: seq<Writing>)
    ensures FindIndex([w] + ws, w.id) == 0
    ensures Find([w] + ws, w.id) == Some(w)
  {
    assert ([w] + ws)[0] == w;
  }

  const UserIdPrefix: string := "user_"
  const UserNamePrefix: string := "Writer "

  /** `!userId` for what the id key holds: absent, or the empty string. */
  predicate SlotEmpty(slot: Option<string>)
  {
    slot.None? || slot.value == ""
  }

  /** The id a call of getUserId returns when the slot holds `slot` and the
      random source yields `randomPart` (the base-36 digits it would cut
      from Math.random()). */
  function ResolveUserId(slot: Option<string>, randomPart: string): (id: string)
    ensures id != ""
    ensures !SlotEmpty(slot) ==> id == slot.value
    ensures SlotEmpty(slot) ==> |id| == |UserIdPrefix| + |randomPart| && id[..|UserIdPrefix|] == UserIdPrefix && id[|UserIdPrefix|..] == randomPart
  {
    if SlotEmpty(slot) then UserIdPrefix + randomPart else slot.value
  }

  /** Once getUserId has stored an id, every later call returns that same
      id, whatever the random source yields then. */
  lemma {:induction false} UserIdStable(slot: Option<string>, first: string, later: string)
    ensures var id := ResolveUserId(slot, first);
      !SlotEmpty(Some(id)) && ResolveUserId(Some(id), later) == id
  {
  }

  /** `Writer ${userId.substring(5, 10)}`. */
  function GetUserName(userId: string): (name: string)
    ensures |name| == |UserNamePrefix| + Min(10, |userId|) - Min(5, |userId|)
    ensures name[..|UserNamePrefix|] == UserNamePrefix
    ensures name[|UserNamePrefix|..] == userId[Min(5, |userId|)..Min(10, |userId|)]
  {
    UserNamePrefix + Substring(userId, 5, 10)
  }

  /** For an id that getUserId generated, the name skips the "user_" prefix
      and shows the first five random characters (fewer if there are fewer). */
  lemma GeneratedUserName(randomPart: string)
    ensures GetUserName(UserIdPrefix + randomPart) == UserNamePrefix + Take(randomPart, 5)
  {
    var id := UserIdPrefix + randomPart;
    assert id[5..Min(10, |id|)] == randomPart[..Min(5, |randomPart|)];
  }

  /** The browser's local storage as the core sees it, the two keys it uses,
      and the log of notifications dispatched on the window. */
  class Store {
    /** "publishedWritings": None when the key is absent or holds the empty
        string; otherwise the parsed list. */
    var writingsSlot: Option<seq<Writing>>
    /** "syahi_user_id". */
    var userIdSlot: Option<string>
    /** Every notification dispatched so far, oldest first. */
    var dispatched: seq<Event>

    constructor (writings: Option<seq<Writing>>, userId: Option<string>)
      ensures writingsSlot == writings && userIdSlot == userId && dispatched == []
    {
      writingsSlot := writings;
      userIdSlot := userId;
      dispatched := [];
    }

    /** getWritingsFromStorage: the stored list, or [] when the key is absent. */
    function GetWritingsFromStorage(): (ws: seq<Writing>)
      reads this
      ensures writingsSlot.None? ==> ws == []
      ensures writingsSlot.Some? ==> ws == writingsSlot.value
    {
      StoredList(writingsSlot)
    }

    /** getWritingById: the first stored record with that id, or None. */
    function GetWritingById(id: string): (r: Option<Writing>)
      reads this
      ensures r.None? <==> forall j :: 0 <= j < |GetWritingsFromStorage()| ==> GetWritingsFromStorage()[j].id != id
      ensures r.Some? ==> r.value.id == id && r.value == GetWritingsFromStorage()[FindIndex(GetWritingsFromStorage(), id)]
    {
      Find(GetWritingsFromStorage(), id)
    }

    /** saveWritingToStorage: read the list, put w at its head, write it
        back, and dispatch "writingPublished". */
    method SaveWritingToStorage(w: Writing)
      modifies this`writingsSlot, this`dispatched
      ensures writingsSlot == Some([w] + old(GetWritingsFromStorage()))
      ensures |GetWritingsFromStorage()| == |old(GetWritingsFromStorage())| + 1
      ensures GetWritingsFromStorage()[0] == w && GetWritingsFromStorage()[1..] == old(GetWritingsFromStorage())
      ensures GetWritingById(w.id) == Some(w)
      ensures dispatched == old(dispatched) + [WritingPublished]
    {
      var allWritings := GetWritingsFromStorage();
      allWritings := [w] + allWritings;
      writingsSlot := Some(allWritings);
      FindAfterPrepend(w, old(GetWritingsFromStorage()));
      dispatched := dispatched + [WritingPublished];
    }

    /** updateWritingInStorage: overwrite the first record with u's id, write
        the list back and dispatch "writingUpdated" carrying u; when no
        record has that id, change nothing, dispatch nothing, report false. */
    method UpdateWritingInStorage(u: Writing) returns (found: bool)
      modifies this`writingsSlot, this`dispatched
      ensures found <==> exists j :: 0 <= j < |old(GetWritingsFromStorage())| && old(GetWritingsFromStorage())[j].id == u.id
      ensures found ==>
        var k := FindIndex(old(GetWritingsFromStorage()), u.id);
        && writingsSlot == Some(old(GetWritingsFromStorage())[k := u])
        && |GetWritingsFromStorage()| == |old(GetWritingsFromStorage())|
        && (forall j :: 0 <= j < |GetWritingsFromStorage()| && j != k ==> GetWritingsFromStorage()[j] == old(GetWritingsFromStorage())[j])
        && GetWritingById(u.id) == Some(u)
        && dispatched == old(dispatched) + [WritingUpdated(u)]
      ensures !found ==> writingsSlot == old(writingsSlot) && dispatched == old(dispatched)
    {
      var allWritings := GetWritingsFromStorage();
      var index := FindIndex(allWritings, u.id);
      if index != -1 {
        ReplaceFirst(allWritings, u);
        allWritings := allWritings[index := u];
        writingsSlot := Some(allWritings);
        dispatched := dispatched + [WritingUpdated(u)];
        return true;
      }
      return false;
    }

    /** getUserId: return the stored id; when the key is absent or empty,
        store "user_" followed by the random part first. */
    method GetUserId(randomPart: string) returns (userId: string)
      modifies this`userIdSlot
      ensures userId == ResolveUserId(old(userIdSlot), randomPart)
      ensures userIdSlot == Some(userId) && userId != ""
      ensures !SlotEmpty(old(userIdSlot)) ==> userIdSlot == old(userIdSlot)
    {
      var stored := userIdSlot;
      if SlotEmpty(stored) {
        userId := UserIdPrefix + randomPart;
        userIdSlot := Some(userId);
      } else {
        userId := stored.value;
      }
    }
  }
}
