/** The UI slice of the renderer store and the window-title trimming. */
module UiStore {

  const MaxTitleLength: nat := 50

  /** `trimTitle`: a title longer than the limit is cut to its first 50
      characters followed by an ellipsis. */
  function TrimTitle(title: string): (r: string)
    ensures |title| <= MaxTitleLength ==> r == title
    ensures |title| > MaxTitleLength ==> r == title[..MaxTitleLength] + "\U{2026}"
    ensures |r| <= MaxTitleLength + 1
    ensures |title| <= MaxTitleLength ==> r[..|title|] == title
    ensures |title| > MaxTitleLength ==> r[..MaxTitleLength] == title[..MaxTitleLength]
  {
    if |title| > MaxTitleLength then title[..MaxTitleLength] + "\U{2026}" else title
  }

  /** Trimming a trimmed title changes nothing: the cut keeps 51
      characters, so the second cut lands on the same 50. */
  lemma TrimTitleIdempotent(title: string)
    ensures TrimTitle(TrimTitle(title)) == TrimTitle(title)
  {
    if |title| > MaxTitleLength {
      var t := TrimTitle(title);
      assert t[..MaxTitleLength] == title[..MaxTitleLength];
    }
  }

  datatype UiState = UiState(started: bool)

  datatype UiAction = StateUpdate | TitleUpdate(title: string) | Unknown

  function InitialState(): (s: UiState)
    ensures s.started
  {
    UiState(true)
  }

  /** The reducer keeps no state of its own: every action leaves it as is. */
  function Reduce(state: UiState, action: UiAction): (r: UiState)
    ensures r == state
  {
    state
  }
}
