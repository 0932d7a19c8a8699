/** The Explore page's view logic: the list shown (the stored writings, or
    three fixed samples when there are none), the search-and-type filter over
    it, and the preview text shown on each card. */
module Explore {
  import opened Types
  import opened JsText
  import opened Storage

  /** Lower-casing, restricted to ASCII letters. */
  function LowerChar(c: char): char
  {
    if 'A' <= c <= 'Z' then (c as int + 32) as char else c
  }

  function ToLower(s: string): (r: string)
    ensures |r| == |s|
    ensures forall i :: 0 <= i < |s| ==> r[i] == LowerChar(s[i])
  {
    seq(|s|, i requires 0 <= i < |s| => LowerChar(s[i]))
  }

  /** `sub` occurs in `s` starting at position i. */
  predicate OccursAt(s: string, sub: string, i: nat)
  {
    i + |sub| <= |s| && s[i..i + |sub|] == sub
  }

  /** `s.includes(sub)`, scanning s from the left. A match needs room for
      sub, and a prefix of s (including the empty string) always matches. */
  predicate Includes(s: string, sub: string)
    ensures Includes(s, sub) ==> |sub| <= |s|
    ensures sub <= s ==> Includes(s, sub)
  {
    if |sub| > |s| then false
    else if s[..|sub|] == sub then true
    else Includes(s[1..], sub)
  }

  /** The scan finds sub exactly when sub occurs somewhere in s. */
  lemma {:induction false} IncludesIffOccurs(s: string, sub: string)
    ensures Includes(s, sub) <==> exists i: nat :: OccursAt(s, sub, i)
  {
    if |sub| > |s| {
    } else if s[..|sub|] == sub {
      assert OccursAt(s, sub, 0);
    } else {
      IncludesIffOccurs(s[1..], sub);
      if Includes(s, sub) {
        var i: nat :| OccursAt(s[1..], sub, i);
        assert s[1..][i..i + |sub|] == s[i + 1..i + 1 + |sub|];
        assert OccursAt(s, sub, i + 1);
      } else if i: nat :| OccursAt(s, sub, i) {
        assert i != 0;
        assert s[1..][i - 1..i - 1 + |sub|] == s[i..i + |sub|];
        assert OccursAt(s[1..], sub, i - 1);
        assert false;
      }
    }
  }

  /** The empty query occurs in every string. */
  lemma IncludesEmpty(s: string)
    ensures Includes(s, "")
  {
    assert s[..0] == "";
  }

  /** The type selector: "all", or one category. */
  datatype TypeFilter = All | Only(kind: Kind)

  /** The search half of the filter callback: the lower-cased query occurs
      in the lower-cased title or content. The empty query matches every
      record, and a query longer than both fields matches none. */
  predicate MatchesSearch(w: Writing, query: string)
    ensures query == "" ==> MatchesSearch(w, query)
    ensures MatchesSearch(w, query) ==> |query| <= |w.title| || |query| <= |w.content|
  {
    Includes(ToLower(w.title), ToLower(query)) || Includes(ToLower(w.content), ToLower(query))
  }

  /** The type half of the filter callback: "all" passes every record, a
      category only the records of that category. */
  predicate MatchesType(w: Writing, filterType: TypeFilter)
    ensures filterType == All ==> MatchesType(w, filterType)
    ensures filterType.Only? ==> (MatchesType(w, filterType) <==> w.kind == filterType.kind)
  {
    filterType.All? || w.kind == filterType.kind
  }

  /** The predicate handed to `filter`: a record is kept only when the
      search matches, and with the empty query only the type decides. */
  predicate Keep(w: Writing, query: string, filterType: TypeFilter)
    ensures Keep(w, query, filterType) ==> MatchesSearch(w, query) && MatchesType(w, filterType)
    ensures query == "" ==> (Keep(w, query, filterType) <==> MatchesType(w, filterType))
  {
    MatchesSearch(w, query) && MatchesType(w, filterType)
  }

  /** A record passes the filter exactly when the lower-cased query occurs
      in its lower-cased title or content, and the selector is "all" or
      names its category. */
  lemma KeepIff(w: Writing, query: string, filterType: TypeFilter)
    ensures Keep(w, query, filterType) <==>
      && ((exists i: nat :: OccursAt(ToLower(w.title), ToLower(query), i))
          || (exists i: nat :: OccursAt(ToLower(w.content), ToLower(query), i)))
      && (filterType == All || w.kind == filterType.kind)
  {
    IncludesIffOccurs(ToLower(w.title), ToLower(query));
    IncludesIffOccurs(ToLower(w.content), ToLower(query));
  }

  /** `writings.filter(...)`. */
  function Filter(ws: seq<Writing>, query: string, filterType: TypeFilter): (r: seq<Writing>)
    ensures |r| <= |ws|
    ensures forall i :: 0 <= i < |r| ==> Keep(r[i], query, filterType)
    ensures forall w :: w in r <==> w in ws && Keep(w, query, filterType)
  {
    if |ws| == 0 then []
    else
      var rest := Filter(ws[1..], query, filterType);
      if Keep(ws[0], query, filterType) then [ws[0]] + rest else rest
  }

  /** idx lists positions of ws in increasing order, and r is what ws holds
      at those positions. */
  ghost predicate Embeds(r: seq<Writing>, ws: seq<Writing>, idx: seq<int>)
  {
    && |idx| == |r|
    && (forall i :: 0 <= i < |idx| ==> 0 <= idx[i] < |ws| && ws[idx[i]] == r[i])
    && (forall i, j :: 0 <= i < j < |idx| ==> idx[i] < idx[j])
  }

  /** Every position moved one to the right. */
  function Shift(idx: seq<int>): (r: seq<int>)
    ensures |r| == |idx|
    ensures forall i :: 0 <= i < |idx| ==> r[i] == idx[i] + 1
  {
    seq(|idx|, i requires 0 <= i < |idx| => idx[i] + 1)
  }

  lemma ShiftMembership(idx: seq<int>, j: int)
    ensures j in Shift(idx) <==> j - 1 in idx
  {
    if j in Shift(idx) {
      var i :| 0 <= i < |idx| && Shift(idx)[i] == j;
      assert idx[i] == j - 1;
    }
    if j - 1 in idx {
      var i :| 0 <= i < |idx| && idx[i] == j - 1;
      assert Shift(idx)[i] == j;
    }
  }

  /** An embedding into the tail of ws is one into ws, shifted by one. */
  lemma EmbedsShift(r: seq<Writing>, ws: seq<Writing>, idx: seq<int>)
    requires |ws| > 0 && Embeds(r, ws[1..], idx)
    ensures Embeds(r, ws, Shift(idx))
  {
  }

  /** ... and the head of ws can be put in front of it. */
  lemma EmbedsCons(r: seq<Writing>, ws: seq<Writing>, idx: seq<int>)
    requires |ws| > 0 && Embeds(r, ws[1..], idx)
    ensures Embeds([ws[0]] + r, ws, [0] + Shift(idx))
  {
    EmbedsShift(r, ws, idx);
    var r', idx' := [ws[0]] + r, [0] + Shift(idx);
    forall i | 0 < i < |idx'|
      ensures 0 <= idx'[i] < |ws| && ws[idx'[i]] == r'[i]
    {
      assert idx'[i] == Shift(idx)[i - 1] && r'[i] == r[i - 1];
    }
  }

  /** The filtered list is the subsequence of the input made of exactly the
      records that pass, in their original order. */
  lemma {:induction false} FilterIsOrderedSelection(ws: seq<Writing>, query: string, filterType: TypeFilter)
    returns (idx: seq<int>)
    ensures Embeds(Filter(ws, query, filterType), ws, idx)
    ensures forall j :: 0 <= j < |ws| ==> (j in idx <==> Keep(ws[j], query, filterType))
  {
    if |ws| == 0 {
      idx := [];
    } else {
      var rest := FilterIsOrderedSelection(ws[1..], query, filterType);
      var r := Filter(ws[1..], query, filterType);
      if Keep(ws[0], query, filterType) {
        EmbedsCons(r, ws, rest);
        idx := [0] + Shift(rest);
      } else {
        EmbedsShift(r, ws, rest);
        idx := Shift(rest);
      }
      forall j | 0 <= j < |ws|
        ensures j in idx <==> Keep(ws[j], query, filterType)
      {
        ShiftMembership(rest, j);
        if j > 0 {
          assert ws[j] == ws[1..][j - 1];
        }
      }
    }
  }

  /** A list every record of which passes is left as it is. */
  lemma {:induction false} FilterKeepsAllPassing(ws: seq<Writing>, query: string, filterType: TypeFilter)
    requires forall i :: 0 <= i < |ws| ==> Keep(ws[i], query, filterType)
    ensures Filter(ws, query, filterType) == ws
  {
    if |ws| > 0 {
      FilterKeepsAllPassing(ws[1..], query, filterType);
      assert Keep(ws[0], query, filterType);
      assert [ws[0]] + ws[1..] == ws;
    }
  }

  /** Filtering twice with the same query and selector changes nothing more. */
  lemma FilterIdempotent(ws: seq<Writing>, query: string, filterType: TypeFilter)
    ensures Filter(Filter(ws, query, filterType), query, filterType) == Filter(ws, query, filterType)
  {
    FilterKeepsAllPassing(Filter(ws, query, filterType), query, filterType);
  }

  /** With an empty query and "all" selected, every record is shown. */
  lemma FilterNothing(ws: seq<Writing>)
    ensures Filter(ws, "", All) == ws
  {
    assert ToLower("") == "";
    forall i | 0 <= i < |ws|
      ensures Keep(ws[i], "", All)
    {
      IncludesEmpty(ToLower(ws[i].title));
    }
    FilterKeepsAllPassing(ws, "", All);
  }

  const SilentEchoContent: string := "Within whispered valleys, memories dance like autumn leaves,\nCarrying echoes of laughter long since faded.\nTime's gentle current sweeps through empty spaces,\nLeaving nothing but the silent echo of what once was."
  const SilentEchoExcerpt: string := "Within whispered valleys, memories dance like autumn leaves..."
  const SolaceContent: string := "The morning fog wrapped around the small coastal town like a protective blanket, obscuring the jagged cliffs and whispering secrets to those who dared to listen..."
  const SolaceExcerpt: string := "The morning fog wrapped around the small coastal town like a protective blanket..."
  const UrbanContent: string := "Concrete towers reach for sky,\nShadows dance on busy streets.\nA thousand lives in passing glance,\nUrban whispers never sleep."
  const UrbanExcerpt: string := "Concrete jungles hiding untold stories beneath the surface of everyday life..."

  /** The three records shown when nothing is stored. Each one reads the
      clock for its own `createdAt`: `t1`, `t2` and `t3` are those three
      readings, in order. */
  function Samples(t1: string, t2: string, t3: string): (ss: seq<Writing>)
    ensures |ss| == 3
    ensures ss[0].id == "sample-1" && ss[1].id == "sample-2" && ss[2].id == "sample-3"
    ensures ss[0].createdAt == t1 && ss[1].createdAt == t2 && ss[2].createdAt == t3
  {
    [ Writing("sample-1", "The Silent Echo", SilentEchoContent, Poem, None, None, None,
        t1, None, 4.8, 24, None, Some(SilentEchoExcerpt), Some(7)),
      Writing("sample-2", "Journey to Solace", SolaceContent, Story, None, None, None,
        t2, None, 4.6, 15, None, Some(SolaceExcerpt), Some(9)),
      Writing("sample-3", "Urban Whispers", UrbanContent, Poem, None, None, None,
        t3, None, 4.3, 18, None, Some(UrbanExcerpt), Some(5)) ]
  }

  /** The list the page shows before filtering: what "publishedWritings"
      holds when that is non-empty, the samples (stamped with the clock
      readings t1, t2, t3) otherwise. The page is never left with nothing
      to show. */
  function DisplayWritings(slot: Option<seq<Writing>>, t1: string, t2: string, t3: string): (shown: seq<Writing>)
    ensures |shown| > 0
    ensures slot.Some? && |slot.value| > 0 ==> shown == slot.value
    ensures slot.None? || slot.value == [] ==> shown == Samples(t1, t2, t3)
  {
    var fetched := StoredList(slot);
    if |fetched| > 0 then fetched else Samples(t1, t2, t3)
  }

  const PreviewLength: nat := 150

  /** `excerpt || content.slice(0, 150) + (content.length > 150 ? "..." : "")`:
      an absent or empty excerpt falls back to the start of the content. */
  function CardText(w: Writing): (text: string)
    ensures w.excerpt.Some? && w.excerpt.value != "" ==> text == w.excerpt.value
    ensures w.excerpt.None? || w.excerpt.value == "" ==>
      && Take(w.content, PreviewLength) <= text
      && (|w.content| <= PreviewLength ==> text == w.content)
      && (|w.content| > PreviewLength ==> |text| == PreviewLength + 3 && text[PreviewLength..] == "...")
  {
    if w.excerpt.Some? && w.excerpt.value != "" then w.excerpt.value
    else Take(w.content, PreviewLength) + (if |w.content| > PreviewLength then "..." else "")
  }
}
