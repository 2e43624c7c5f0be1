/** The transcript search: an entry is shown when the search term is empty or
    occurs, ignoring case, in the entry's text or in its speaker's name. */
module TranscriptView {
  import Text
  import Lists

  datatype Entry = Entry(speaker: string, timestamp: string, text: string)

  /** The test an entry must pass to be shown for `term`. The empty term shows every
      entry, and so does a term occurring in the text or the speaker as it is written. */
  function Shown(term: string, e: Entry): (r: bool)
    ensures term == "" ==> r
    ensures Text.Contains(e.text, term) || Text.Contains(e.speaker, term) ==> r
  {
    Text.ContainsLower(e.text, term);
    Text.ContainsLower(e.speaker, term);
    term == "" ||
    Text.Contains(Text.ToLower(e.text), Text.ToLower(term)) ||
    Text.Contains(Text.ToLower(e.speaker), Text.ToLower(term))
  }

  function ShownFor(term: string): Entry -> bool {
    e => Shown(term, e)
  }

  /** The entries shown for `term`, in transcript order. */
  function Search(entries: seq<Entry>, term: string): (r: seq<Entry>)
    ensures forall i :: 0 <= i < |r| ==> r[i] in entries && Shown(term, r[i])
    ensures forall i :: 0 <= i < |entries| && Shown(term, entries[i]) ==> entries[i] in r
  {
    Lists.Filter(entries, ShownFor(term))
  }

  /** The result keeps transcript order and drops entries only. */
  lemma SearchIsSubsequence(entries: seq<Entry>, term: string)
    ensures Lists.IsSubsequence(Search(entries, term), entries)
    ensures |Search(entries, term)| <= |entries|
  {
    Lists.FilterIsSubsequence(entries, ShownFor(term));
  }

  /** An empty search shows the whole transcript. */
  lemma EmptySearchShowsAll(entries: seq<Entry>)
    ensures Search(entries, "") == entries
  {
    Lists.FilterAll(entries, ShownFor(""));
  }

  /** Any term occurs in itself, so a speaker's own name (in any case) finds
      every entry of that speaker. */
  lemma SpeakerNameFindsSpeaker(entries: seq<Entry>, name: string, i: nat)
    requires i < |entries| && Text.ToLower(entries[i].speaker) == Text.ToLower(name)
    ensures entries[i] in Search(entries, name)
  {
    assert Text.OccursAt(Text.ToLower(entries[i].speaker), Text.ToLower(name), 0);
  }

  /** Two terms that lower-case alike show the same entries: the search ignores case. */
  lemma SearchIgnoresCase(entries: seq<Entry>, t1: string, t2: string)
    requires Text.ToLower(t1) == Text.ToLower(t2)
    ensures Search(entries, t1) == Search(entries, t2)
  {
    assert |t1| == |Text.ToLower(t1)| == |t2|;
    Lists.FilterAgree(entries, ShownFor(t1), ShownFor(t2));
  }

  /** In particular, searching for the lower-cased term is the same search. */
  lemma SearchLowered(entries: seq<Entry>, term: string)
    ensures Search(entries, Text.ToLower(term)) == Search(entries, term)
  {
    Text.ToLowerIdempotent(term);
    SearchIgnoresCase(entries, Text.ToLower(term), term);
  }
}
