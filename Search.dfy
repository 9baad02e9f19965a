/** The search box: which job cards stay visible for a title filter and a
    location filter. */
module Search {
  import opened Text
  import opened Markup

  /** A search input's value lower-cased and trimmed; a missing input is ''. */
  function NormalizedFilter(input: Option<string>): (f: string)
    ensures input.None? ==> f == []
    ensures Trimmed(f)
    ensures forall k :: 0 <= k < |f| ==> !IsAsciiUpper(f[k])
    ensures input.Some? ==> |f| <= |input.value|
  {
    match input
    case None => []
    case Some(raw) => Trim(Lower(raw))
  }

  /** The lower-cased text of the card's first `h3`, or '' without one. */
  function TitleText(card: JobCard): (t: string)
    ensures card.heading.None? ==> t == []
    ensures card.heading.Some? ==> |t| == |card.heading.value|
    ensures card.heading.Some? ==> forall k :: 0 <= k < |t| ==> t[k] == LowerChar(card.heading.value[k])
    ensures forall k :: 0 <= k < |t| ==> !IsAsciiUpper(t[k])
  {
    match card.heading
    case None => []
    case Some(t) => Lower(t)
  }

  /** The lower-cased text of the card's first `p`, or '' without one. */
  function LocationText(card: JobCard): (t: string)
    ensures card.paragraphs == [] ==> t == []
    ensures card.paragraphs != [] ==> |t| == |card.paragraphs[0]|
    ensures card.paragraphs != [] ==> forall k :: 0 <= k < |t| ==> t[k] == LowerChar(card.paragraphs[0][k])
    ensures forall k :: 0 <= k < |t| ==> !IsAsciiUpper(t[k])
  {
    if card.paragraphs == [] then [] else Lower(card.paragraphs[0])
  }

  /** One filter lets a text through when it is empty or occurs in the text. */
  predicate Accepts(filter: string, text: string): (b: bool)
    ensures b <==> filter == [] || exists i :: OccursAt(text, filter, i)
  {
    IncludesIffOccurs(text, filter);
    filter == [] || Includes(text, filter)
  }

  /** Both filters let the card through. */
  predicate Visible(titleFilter: string, locationFilter: string, card: JobCard): (v: bool)
    ensures titleFilter == [] && locationFilter == [] ==> v
    ensures v ==> titleFilter == [] || exists i :: OccursAt(TitleText(card), titleFilter, i)
    ensures v ==> locationFilter == [] || exists i :: OccursAt(LocationText(card), locationFilter, i)
  {
    Accepts(titleFilter, TitleText(card)) && Accepts(locationFilter, LocationText(card))
  }

  /** A typed filter is its lower-cased text with the surrounding
      whitespace cut off: lower-case, then whitespace, filter, whitespace. */
  lemma NormalizedFilterSplits(raw: string) returns (front: string, back: string)
    ensures AllTrimmable(front) && AllTrimmable(back)
    ensures Lower(raw) == front + NormalizedFilter(Some(raw)) + back
  {
    front, back := TrimDecomposes(Lower(raw));
  }

  /** A value already in normal form is its own filter. */
  lemma NormalizedFilterKeepsNormal(raw: string)
    requires Trimmed(raw) && forall k :: 0 <= k < |raw| ==> !IsAsciiUpper(raw[k])
    ensures NormalizedFilter(Some(raw)) == raw
  {
    forall k | 0 <= k < |raw|
      ensures Lower(raw)[k] == raw[k]
    {
      assert !IsAsciiUpper(raw[k]);
    }
    assert Lower(raw) == raw;
    TrimOfPadded([], raw, []);
    assert [] + raw + [] == raw;
  }

  /** The display `performSearch` gives a card: 'flex' when visible, else 'none'. */
  function DisplayFor(titleFilter: string, locationFilter: string, card: JobCard): (d: Display)
    ensures d == Flex <==> Visible(titleFilter, locationFilter, card)
    ensures titleFilter == [] && locationFilter == [] ==> d == Flex
  {
    if Visible(titleFilter, locationFilter, card) then Flex else Hidden
  }

  /** `performSearch`: normalises both inputs once and sets every card's
      display from the visibility test. */
  method PerformSearch(titleInput: Option<string>, locationInput: Option<string>,
                       cards: seq<JobCard>, display: array<Display>)
    requires display.Length == |cards|
    modifies display
    ensures forall i :: 0 <= i < |cards| ==>
              display[i] == DisplayFor(NormalizedFilter(titleInput), NormalizedFilter(locationInput), cards[i])
  {
    var titleFilter := NormalizedFilter(titleInput);
    var locationFilter := NormalizedFilter(locationInput);
    var i := 0;
    while i < |cards|
      invariant 0 <= i <= |cards|
      invariant forall j :: 0 <= j < i ==> display[j] == DisplayFor(titleFilter, locationFilter, cards[j])
    {
      var card := cards[i];
      if Visible(titleFilter, locationFilter, card) {
        display[i] := Flex;
      } else {
        display[i] := Hidden;
      }
      assert display[i] == DisplayFor(titleFilter, locationFilter, card);
      i := i + 1;
    }
  }

  /** A card is shown exactly when each normalised filter is empty or occurs
      at some position of the card's lower-cased title (resp. location). */
  lemma VisibleIffOccurs(titleInput: Option<string>, locationInput: Option<string>, card: JobCard)
    ensures DisplayFor(NormalizedFilter(titleInput), NormalizedFilter(locationInput), card) == Flex
            <==> ((NormalizedFilter(titleInput) == []
                   || exists i :: OccursAt(TitleText(card), NormalizedFilter(titleInput), i))
                  && (NormalizedFilter(locationInput) == []
                      || exists i :: OccursAt(LocationText(card), NormalizedFilter(locationInput), i)))
  {
    IncludesIffOccurs(TitleText(card), NormalizedFilter(titleInput));
    IncludesIffOccurs(LocationText(card), NormalizedFilter(locationInput));
  }

  /** An input that is missing or holds only whitespace filters nothing. */
  predicate Blank(input: Option<string>) {
    input.None? || AllTrimmable(input.value)
  }

  lemma BlankFilterIsEmpty(input: Option<string>)
    requires Blank(input)
    ensures NormalizedFilter(input) == []
  {
    if input.Some? {
      LowerOfTrimmable(input.value);
      TrimOfPadded(input.value, [], []);
      assert input.value + [] + [] == input.value;
    }
  }

  /** With both inputs blank every card is shown. */
  lemma BlankFiltersShowEveryCard(titleInput: Option<string>, locationInput: Option<string>, card: JobCard)
    requires Blank(titleInput) && Blank(locationInput)
    ensures DisplayFor(NormalizedFilter(titleInput), NormalizedFilter(locationInput), card) == Flex
  {
    BlankFilterIsEmpty(titleInput);
    BlankFilterIsEmpty(locationInput);
  }

  /** The filter does not depend on the case of what was typed. */
  lemma FilterIgnoresCase(raw: string)
    ensures NormalizedFilter(Some(Lower(raw))) == NormalizedFilter(Some(raw))
  {
    LowerIdempotent(raw);
  }

  /** Nor on whitespace typed around it. */
  lemma FilterIgnoresPadding(front: string, raw: string, back: string)
    requires AllTrimmable(front) && AllTrimmable(back)
    ensures NormalizedFilter(Some(front + raw + back)) == NormalizedFilter(Some(raw))
  {
    LowerOfPadded(front, raw, back);
    TrimIgnoresPadding(front, Lower(raw), back);
  }

  /** The card's own text is compared without regard to case. */
  lemma CardTextIgnoresCase(titleFilter: string, locationFilter: string, card: JobCard)
    ensures Visible(titleFilter, locationFilter, card)
            == Visible(titleFilter, locationFilter, LoweredCard(card))
  {
    if card.heading.Some? { LowerIdempotent(card.heading.value); }
    if card.paragraphs != [] { LowerIdempotent(card.paragraphs[0]); }
  }

  function LoweredCard(card: JobCard): JobCard {
    JobCard(
      match card.heading case None => None case Some(t) => Some(Lower(t)),
      card.strong,
      if card.paragraphs == [] then [] else [Lower(card.paragraphs[0])] + card.paragraphs[1..])
  }
}
