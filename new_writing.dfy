/** The publish form: once the form's length checks pass, build a fresh
    record from the form data and put it at the head of the stored list. */
module NewWriting {
  import opened Types
  import opened JsText
  import opened Storage
  import Explore

  /** What the form hands to its submit handler. */
  datatype FormValues = FormValues(title: string, content: string, kind: Kind)

  const MinTitleLength: nat := 2
  const MinContentLength: nat := 10
  const ExcerptLength: nat := 150
  const WritingIdPrefix: string := "writing-"

  /** The form schema: a title of at least 2, a content of at least 10
      characters. Accepted data never has an empty title or content. */
  predicate SchemaAccepts(data: FormValues)
    ensures SchemaAccepts(data) ==> data.title != [] && data.content != []
  {
    |data.title| >= MinTitleLength && |data.content| >= MinContentLength
  }

  /** The record the submit handler builds: `now` is Date.now(), and
      `createdAt` and `updatedAt` are the two separate readings of the clock
      it renders as ISO strings, which need not agree. Counters start at zero, the
      excerpt is the first 150 characters of the content, and nothing is set
      that the handler does not set. */
  function NewRecord(data: FormValues, now: nat, createdAt: string, updatedAt: string): (w: Writing)
    ensures w.title == data.title && w.content == data.content && w.kind == data.kind
    ensures w.averageRating == 0.0 && w.totalRatings == 0 && w.commentsCount == Some(0)
    ensures w.excerpt.Some? && w.excerpt.value <= data.content
    ensures |w.excerpt.value| == Min(ExcerptLength, |data.content|)
    ensures w.createdAt == createdAt && w.updatedAt == Some(updatedAt)
    ensures w.authorId.None? && w.author.None? && w.authorName.None? && w.comments.None?
    ensures |w.id| > |WritingIdPrefix| && w.id[..|WritingIdPrefix|] == WritingIdPrefix
  {
    Writing(WritingIdPrefix + Decimal(now), data.title, data.content, data.kind,
      None, None, None, createdAt, Some(updatedAt), 0.0, 0, None,
      Some(Take(data.content, ExcerptLength)), Some(0))
  }

  /** Submissions made at different milliseconds get different ids. */
  lemma NewRecordIdsDiffer(d1: FormValues, d2: FormValues, now1: nat, now2: nat, c1: string, u1: string, c2: string, u2: string)
    requires now1 != now2
    ensures NewRecord(d1, now1, c1, u1).id != NewRecord(d2, now2, c2, u2).id
  {
    var p := WritingIdPrefix;
    if NewRecord(d1, now1, c1, u1).id == NewRecord(d2, now2, c2, u2).id {
      assert (p + Decimal(now1))[|p|..] == Decimal(now1);
      assert (p + Decimal(now2))[|p|..] == Decimal(now2);
      DecimalInjective(now1, now2);
    }
  }

  /** A content of at most 150 characters is its own excerpt. */
  lemma ShortContentIsExcerpt(data: FormValues, now: nat, createdAt: string, updatedAt: string)
    requires |data.content| <= ExcerptLength
    ensures NewRecord(data, now, createdAt, updatedAt).excerpt == Some(data.content)
  {
    assert data.content[..|data.content|] == data.content;
  }

  /** A freshly published record's card on the Explore page shows its
      excerpt, i.e. the first 150 characters of the content, with no "..."
      even when the content is longer: the accepted content is never empty,
      so the excerpt always wins over the fallback. */
  lemma NewRecordCard(data: FormValues, now: nat, createdAt: string, updatedAt: string)
    requires SchemaAccepts(data)
    ensures Explore.CardText(NewRecord(data, now, createdAt, updatedAt)) == Take(data.content, ExcerptLength)
    ensures |Explore.CardText(NewRecord(data, now, createdAt, updatedAt))| <= ExcerptLength
  {
  }

  /** onSubmit, from the moment the schema has accepted the data: build the
      record, read "publishedWritings" (absent reads as the empty list), put
      the record at its head, write the list back and dispatch
      "writingPublished". The user id key is left alone. */
  method OnSubmit(store: Store, data: FormValues, now: nat, createdAt: string, updatedAt: string)
    requires SchemaAccepts(data)
    modifies store`writingsSlot, store`dispatched
    ensures store.writingsSlot == Some([NewRecord(data, now, createdAt, updatedAt)] + old(store.GetWritingsFromStorage()))
    ensures |store.GetWritingsFromStorage()| == |old(store.GetWritingsFromStorage())| + 1
    ensures store.GetWritingsFromStorage()[1..] == old(store.GetWritingsFromStorage())
    ensures store.GetWritingById(NewRecord(data, now, createdAt, updatedAt).id) == Some(NewRecord(data, now, createdAt, updatedAt))
    ensures store.dispatched == old(store.dispatched) + [WritingPublished]
  {
    var newWriting := NewRecord(data, now, createdAt, updatedAt);
    var existingWritings := store.writingsSlot;
    var allWritings := StoredList(existingWritings);
    allWritings := [newWriting] + allWritings;
    store.writingsSlot := Some(allWritings);
    FindAfterPrepend(newWriting, old(store.GetWritingsFromStorage()));
    store.dispatched := store.dispatched + [WritingPublished];
  }
}
