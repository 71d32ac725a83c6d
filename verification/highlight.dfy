/** The word-boundary highlight heuristic of the communicator: when the speech
    engine reports that it reached a new word, find the pictogram to highlight by
    matching the first three lower-case characters of the spoken word against the
    lower-case labels, scanning forward from the last matched index. */
module Highlight {
  import opened Text

  /** A label matches when its lower-case form starts with the spoken prefix. */
  predicate LabelMatches(w: string, prefix: string)
    ensures LabelMatches(w, prefix) <==>
              |prefix| <= |w| && forall i :: 0 <= i < |prefix| ==> LowerChar(w[i]) == prefix[i]
  {
    StartsWith(ToLower(w), prefix)
  }

  /** `labels.findIndex((w, i) => i >= from && LabelMatches(w, prefix))`, scanning
      from index `i`: the first matching index at or after both `i` and `from`, or
      -1 when there is none. */
  function FindFrom(labels: seq<string>, from: nat, prefix: string, i: nat): (r: int)
    ensures r == -1 || (i <= r < |labels| && from <= r && LabelMatches(labels[r], prefix))
    ensures r == -1 ==> forall j :: i <= j < |labels| && from <= j ==> !LabelMatches(labels[j], prefix)
    ensures r != -1 ==> forall j :: i <= j < r && from <= j ==> !LabelMatches(labels[j], prefix)
    decreases |labels| - i
  {
    if i >= |labels| then -1
    else if i >= from && LabelMatches(labels[i], prefix) then i
    else FindFrom(labels, from, prefix, i + 1)
  }

  /** The prefix the handler looks for: the first three characters of the lower-case
      word that starts at `charIndex` of the spoken text. */
  function SpokenPrefix(text: string, charIndex: nat): (r: string)
    ensures var w := ToLower(FirstWord(Suffix(text, charIndex)));
            |r| == (if |w| <= 3 then |w| else 3) && StartsWith(w, r)
  {
    Take(ToLower(FirstWord(Suffix(text, charIndex))), 3)
  }

  /** The last matched index after a word boundary at `charIndex` of `text`, given
      the labels of the sentence as it is now and the previous matched index. It
      moves only to the first label at or after the previous index that matches;
      with no match it stays. It never moves backwards. */
  function NextWordIndex(labels: seq<string>, text: string, wordIndex: nat, charIndex: nat): (r: nat)
    ensures wordIndex <= r
    ensures r != wordIndex ==> r < |labels| && LabelMatches(labels[r], SpokenPrefix(text, charIndex))
    ensures r != wordIndex ==> forall j :: wordIndex <= j < r ==> !LabelMatches(labels[j], SpokenPrefix(text, charIndex))
    ensures (exists j :: wordIndex <= j < |labels| && LabelMatches(labels[j], SpokenPrefix(text, charIndex))) ==>
              r < |labels| && LabelMatches(labels[r], SpokenPrefix(text, charIndex))
              && forall j :: wordIndex <= j < r ==> !LabelMatches(labels[j], SpokenPrefix(text, charIndex))
  {
    var found := FindFrom(labels, wordIndex, SpokenPrefix(text, charIndex), 0);
    if found == -1 then wordIndex else found
  }

  /** A word always matches the prefix taken from itself. */
  lemma WordMatchesOwnPrefix(w: string)
    ensures LabelMatches(w, Take(ToLower(w), 3))
  {
  }

  /** When the labels are still the words that were spoken, none contains a space,
      and the engine reports the start of word `k` at or after the last matched
      index, the highlight lands between the last matched index and `k`; it lands
      exactly on `k` unless an earlier label in that range shares the prefix. */
  lemma BoundaryAtWordStart(labels: seq<string>, wordIndex: nat, k: nat)
    requires k < |labels| && NoSpaces(labels) && wordIndex <= k
    ensures var r := NextWordIndex(labels, Join(labels), wordIndex, WordStart(labels, k));
            wordIndex <= r <= k
            && ((forall j :: wordIndex <= j < k ==> !LabelMatches(labels[j], Take(ToLower(labels[k]), 3))) ==> r == k)
  {
    var prefix := SpokenPrefix(Join(labels), WordStart(labels, k));
    WordAtWordStart(labels, k);
    assert prefix == Take(ToLower(labels[k]), 3);
    WordMatchesOwnPrefix(labels[k]);
  }
}
