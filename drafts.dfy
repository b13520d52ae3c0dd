/**
 * The draft store: an in-memory list of saved pitches, newest first, capped
 * at twenty entries, from which entries are deleted by id.
 */
module Drafts {
  /** The reader the pitch is framed for. */
  datatype AudienceMode = Investor | Customer | Partner | Press | Casual

  /** How long the pitch should be: six words, ten words, one sentence or two sentences. */
  datatype LengthMode = SixWords | TenWords | OneSentence | TwoSentences

  /**
   * A saved pitch with the modes it was written for; `id` is the save time
   * in milliseconds, `timestamp` and `date` are its display forms.
   */
  datatype DraftEntry = DraftEntry(id: int, pitch: string, audience: AudienceMode, length: LengthMode,
                                   timestamp: string, date: string)

  /** The store keeps at most this many drafts. */
  const MaxDrafts: nat := 20

  function Min(a: int, b: int): int {
    if a < b then a else b
  }

  /**
   * The store after saving `entry`: `entry` in front, then the older drafts
   * in their order, cut to the newest twenty.
   */
  function Prepended(drafts: seq<DraftEntry>, entry: DraftEntry): (r: seq<DraftEntry>)
    ensures |r| == Min(|drafts| + 1, MaxDrafts)
    ensures r[0] == entry
    ensures r[1..] == drafts[..|r| - 1]
  {
    ([entry] + drafts)[..Min(|drafts| + 1, MaxDrafts)]
  }

  /** The store after deleting by `id`: the drafts with another id, in their order. */
  function WithoutId(drafts: seq<DraftEntry>, id: int): (r: seq<DraftEntry>)
    ensures |r| <= |drafts|
    ensures forall e | e in r :: e in drafts && e.id != id
    ensures forall e | e in drafts && e.id != id :: e in r
  {
    if drafts == [] then []
    else (if drafts[0].id != id then [drafts[0]] else []) + WithoutId(drafts[1..], id)
  }

  /** Deleting distributes over the parts of a list, so it keeps the survivors' order. */
  lemma {:induction false} WithoutIdConcat(a: seq<DraftEntry>, b: seq<DraftEntry>, id: int)
    ensures WithoutId(a + b, id) == WithoutId(a, id) + WithoutId(b, id)
  {
    if a != [] {
      var head := if a[0].id != id then [a[0]] else [];
      assert WithoutId(a + b, id) == head + WithoutId(a[1..] + b, id) by {
        assert (a + b)[0] == a[0] && (a + b)[1..] == a[1..] + b;
      }
      assert WithoutId(a[1..] + b, id) == WithoutId(a[1..], id) + WithoutId(b, id) by {
        WithoutIdConcat(a[1..], b, id);
      }
      assert WithoutId(a, id) == head + WithoutId(a[1..], id);
    } else {
      assert a + b == b;
    }
  }

  /** Deleting an id that no draft has changes nothing. */
  lemma {:induction false} WithoutAbsentId(drafts: seq<DraftEntry>, id: int)
    requires forall e | e in drafts :: e.id != id
    ensures WithoutId(drafts, id) == drafts
  {
    if drafts != [] {
      WithoutAbsentId(drafts[1..], id);
    }
  }

  /** Deleting twice by the same id is deleting once. */
  lemma WithoutIdIdempotent(drafts: seq<DraftEntry>, id: int)
    ensures WithoutId(WithoutId(drafts, id), id) == WithoutId(drafts, id)
  {
    WithoutAbsentId(WithoutId(drafts, id), id);
  }

  /** Deleting a just-saved draft by its fresh id gives back the store as it was before the save. */
  lemma DeleteUndoesSave(drafts: seq<DraftEntry>, entry: DraftEntry)
    requires |drafts| < MaxDrafts
    requires forall e | e in drafts :: e.id != entry.id
    ensures WithoutId(Prepended(drafts, entry), entry.id) == drafts
  {
    assert Prepended(drafts, entry) == [entry] + drafts;
    WithoutIdConcat([entry], drafts, entry.id);
    WithoutAbsentId(drafts, entry.id);
  }

  /** The store after saving `entries` one after the other, the first one first. */
  function SaveAll(drafts: seq<DraftEntry>, entries: seq<DraftEntry>): seq<DraftEntry>
    decreases |entries|
  {
    if entries == [] then drafts else SaveAll(Prepended(drafts, entries[0]), entries[1..])
  }

  function Reverse<T>(s: seq<T>): (r: seq<T>)
    ensures |r| == |s|
  {
    if s == [] then [] else Reverse(s[1..]) + [s[0]]
  }

  lemma TakeOfCut(r: seq<DraftEntry>, x: seq<DraftEntry>, n: nat)
    ensures (r + x[..Min(|x|, n)])[..Min(|r| + Min(|x|, n), n)] == (r + x)[..Min(|r| + |x|, n)]
  {
  }

  /**
   * After any series of saves the store holds the newest twenty drafts,
   * newest first: a save beyond the twentieth evicts the oldest draft.
   */
  lemma {:induction false} SaveAllKeepsNewest(drafts: seq<DraftEntry>, entries: seq<DraftEntry>)
    requires |drafts| <= MaxDrafts
    ensures SaveAll(drafts, entries)
            == (Reverse(entries) + drafts)[..Min(|entries| + |drafts|, MaxDrafts)]
    decreases |entries|
  {
    if entries == [] {
    } else {
      var e, rest := entries[0], entries[1..];
      var saved := Prepended(drafts, e);
      SaveAllKeepsNewest(saved, rest);
      assert saved == ([e] + drafts)[..Min(|[e] + drafts|, MaxDrafts)];
      TakeOfCut(Reverse(rest), [e] + drafts, MaxDrafts);
      assert Reverse(entries) + drafts == Reverse(rest) + ([e] + drafts);
    }
  }
}
