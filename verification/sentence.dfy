/** The sentence buffer and the little state around it: the active language, the
    grid's current category, and what is spoken when a token is picked or the
    sentence is played. */
module Sentence {
  import opened Text
  import opened Vocabulary

  datatype Option<T> = None | Some(value: T)

  /** One buffer entry: a catalog item, or text typed on the keyboard (which the
      engine tags with the category 'manual'). */
  datatype Token = Vocab(item: VocabItem) | Manual(text: string)

  /** The text a token stands for: the item's text in the locale, or the typed text
      whatever the locale. */
  function TokenText(t: Token, loc: Locale): string {
    match t
    case Vocab(item) => item.TextIn(loc)
    case Manual(text) => text
  }

  /** A catalog token reads as its English text in English and its Chinese text in
      Chinese; typed text reads the same in both. */
  lemma TokenTextByLocale(t: Token)
    ensures t.Vocab? ==> TokenText(t, EN) == t.item.en && TokenText(t, ZH) == t.item.zh
    ensures t.Manual? ==> TokenText(t, EN) == TokenText(t, ZH) == t.text
  {
  }

  /** The words of a buffer, one per token, in order. */
  function Words(tokens: seq<Token>, loc: Locale): (ws: seq<string>)
    ensures |ws| == |tokens|
    ensures forall i :: 0 <= i < |tokens| ==> ws[i] == TokenText(tokens[i], loc)
  {
    seq(|tokens|, i requires 0 <= i < |tokens| => TokenText(tokens[i], loc))
  }

  /** The application state the core reads and writes. */
  datatype AppState = AppState(language: Locale, sentence: seq<Token>, currentCategory: Category)

  /** English, an empty sentence, the People page. */
  const InitialState: AppState := AppState(EN, [], People)

  /** `add_to_sentence`: the token goes to the end; nothing else changes. */
  function AddToSentence(st: AppState, t: Token): (r: AppState)
    ensures |r.sentence| == |st.sentence| + 1
    ensures r.sentence[..|st.sentence|] == st.sentence && r.sentence[|st.sentence|] == t
    ensures r.language == st.language && r.currentCategory == st.currentCategory
  {
    st.(sentence := st.sentence + [t])
  }

  /** The text spoken right after a token is picked. */
  function Announcement(t: Token, loc: Locale): (r: string)
    ensures t.Manual? ==> r == t.text
    ensures t.Vocab? && loc == EN ==> r == t.item.en
    ensures t.Vocab? && loc == ZH ==> r == t.item.zh
  {
    TokenText(t, loc)
  }

  /** `backspace`: drops the last token when there is one. */
  function Backspace(st: AppState): (r: AppState)
    ensures |st.sentence| == 0 ==> r == st
    ensures |st.sentence| > 0 ==>
              |r.sentence| == |st.sentence| - 1 && r.sentence + [st.sentence[|st.sentence| - 1]] == st.sentence
    ensures r.language == st.language && r.currentCategory == st.currentCategory
  {
    if |st.sentence| > 0 then st.(sentence := st.sentence[..|st.sentence| - 1]) else st
  }

  /** `clear_sentence`. */
  function ClearSentence(st: AppState): (r: AppState)
    ensures r.sentence == []
    ensures r.language == st.language && r.currentCategory == st.currentCategory
  {
    st.(sentence := [])
  }

  function OtherLocale(loc: Locale): Locale {
    if loc == EN then ZH else EN
  }

  /** `toggle_language`: switches between English and Chinese and empties the sentence. */
  function ToggleLanguage(st: AppState): (r: AppState)
    ensures r.language != st.language
    ensures r.sentence == []
    ensures r.currentCategory == st.currentCategory
  {
    AppState(OtherLocale(st.language), [], st.currentCategory)
  }

  /** `change_category`: selects which grid page is shown. */
  function ChangeCategory(st: AppState, cat: Category): (r: AppState)
    ensures r.currentCategory == cat
    ensures r.language == st.language && r.sentence == st.sentence
  {
    st.(currentCategory := cat)
  }

  /** The items offered on the current grid page. */
  function VisibleItems(st: AppState): (r: seq<VocabItem>)
    ensures forall i :: 0 <= i < |r| ==> r[i].category == st.currentCategory
  {
    ByCategory(st.currentCategory)
  }

  /** `play_sentence`: nothing is spoken for an empty sentence; otherwise the words
      joined by single spaces. */
  function PlayText(st: AppState): (r: Option<string>)
    ensures r.None? <==> |st.sentence| == 0
  {
    if |st.sentence| == 0 then None else Some(Join(Words(st.sentence, st.language), " "))
  }

  /** The application starts in English on the People page with nothing to play:
      the grid shows exactly the people cards, in catalog order. */
  lemma InitialPage()
    ensures InitialState.language == EN && InitialState.sentence == []
    ensures VisibleItems(InitialState) == PeopleItems
    ensures PlayText(InitialState) == None
  {
    ByCategoryIsBlock(People);
  }

  /** Backspace undoes the addition of a token. */
  lemma BackspaceUndoesAdd(st: AppState, t: Token)
    ensures Backspace(AddToSentence(st, t)) == st
  {
    assert (st.sentence + [t])[..|st.sentence|] == st.sentence;
  }

  /** Clearing twice is clearing once, and toggling the language twice returns to the
      same language with an empty sentence: it is clearing. */
  lemma ToggleTwiceIsClear(st: AppState)
    ensures ToggleLanguage(ToggleLanguage(st)) == ClearSentence(st)
    ensures ClearSentence(ClearSentence(st)) == ClearSentence(st)
  {
  }

  /** The text announced when a token is picked is the word it adds to the sentence. */
  lemma AnnouncementIsLastWord(st: AppState, t: Token)
    ensures Words(AddToSentence(st, t).sentence, st.language)[|st.sentence|] == Announcement(t, st.language)
  {
  }

  /** Played text keeps the words apart: when no word holds a space, splitting the
      spoken text at spaces gives the sentence's words back. */
  lemma PlayTextKeepsWords(st: AppState)
    requires |st.sentence| > 0
    requires forall i :: 0 <= i < |st.sentence| ==> ' ' !in TokenText(st.sentence[i], st.language)
    ensures PlayText(st).Some? && Split(PlayText(st).value, ' ') == Words(st.sentence, st.language)
  {
    SplitJoinRoundTrip(Words(st.sentence, st.language), ' ');
  }
}
