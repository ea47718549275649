/** The phrase-expansion engine (`_ai_process`): it reads the sentence into a
    context (the words, the category of the last token and its last word), then
    applies the rule set of the active locale. */
module Expansion {
  import opened Text
  import opened Vocabulary
  import opened Sentence

  /** The category the engine sees for the last token: a catalog category, `'manual'`
      for typed text, or `'other'` for an empty sentence. */
  datatype LastCategory = Of(cat: Category) | ManualTag | OtherTag

  /** `words`, `last_category` and `last_word_text`. */
  datatype Context = Context(words: seq<string>, lastCategory: LastCategory, lastWord: string)

  /** The index `random.choice` draws among the three request templates. */
  type Pick = p: nat | p < 3

  function TagOf(t: Token): LastCategory {
    match t
    case Vocab(item) => Of(item.category)
    case Manual(_) => ManualTag
  }

  /** The last word as the rules compare it: catalog text lowered, typed text as typed. */
  function LastWordOf(t: Token, loc: Locale): string
  {
    match t
    case Vocab(item) => Lower(item.TextIn(loc))
    case Manual(text) => text
  }

  /** The category tag of a token: a catalog token is tagged with its category, typed
      text with 'manual'; no token is ever tagged 'other'. The last word of a catalog
      token is its text lowered; typed text is kept as typed. */
  lemma TokenTags(t: Token, loc: Locale)
    ensures TagOf(t).Of? <==> t.Vocab?
    ensures TagOf(t).Of? ==> TagOf(t).cat == t.item.category
    ensures TagOf(t) != OtherTag
    ensures t.Manual? ==> LastWordOf(t, loc) == TokenText(t, loc)
    ensures t.Vocab? ==> LastWordOf(t, loc) == Lower(TokenText(t, loc))
    ensures t.Vocab? ==> HasNoUpper(LastWordOf(t, loc))
  {
  }

  /** The loop of `_ai_process` over the sentence: every token appends its word and
      overwrites the last category and last word. */
  function ExtractContext(tokens: seq<Token>, loc: Locale): (c: Context)
    ensures c.words == Words(tokens, loc)
    ensures |tokens| == 0 ==> c.lastCategory == OtherTag && c.lastWord == ""
    ensures |tokens| > 0 ==> c.lastCategory == TagOf(tokens[|tokens| - 1])
    ensures |tokens| > 0 ==> c.lastWord == LastWordOf(tokens[|tokens| - 1], loc)
    decreases |tokens|
  {
    if |tokens| == 0 then Context([], OtherTag, "")
    else
      var prev := ExtractContext(tokens[..|tokens| - 1], loc);
      var t := tokens[|tokens| - 1];
      Context(prev.words + [TokenText(t, loc)], TagOf(t), LastWordOf(t, loc))
  }

  /** `full_text`: the words joined by single spaces. */
  function FullText(c: Context): string {
    Join(c.words, " ")
  }

  // ---------------------------------------------------------------------------
  // English rules

  /** The words, each lowered, for the negation test. */
  function LowerAll(ws: seq<string>): (r: seq<string>)
    ensures |r| == |ws|
    ensures forall i :: 0 <= i < |ws| ==> r[i] == Lower(ws[i])
  {
    seq(|ws|, i requires 0 <= i < |ws| => Lower(ws[i]))
  }

  predicate AnyNo(ws: seq<string>) {
    exists i :: 0 <= i < |ws| && IsNo(ws[i])
  }

  lemma LowerAllHasNo(ws: seq<string>)
    ensures "no" in LowerAll(ws) <==> AnyNo(ws)
  {
    if "no" in LowerAll(ws) {
      var i :| 0 <= i < |ws| && LowerAll(ws)[i] == "no";
      assert IsNo(ws[i]);
    }
    if AnyNo(ws) {
      var i :| 0 <= i < |ws| && IsNo(ws[i]);
      assert LowerAll(ws)[i] == "no";
    }
  }

  /** The content words: every word that is not a "no", in order, repeats kept. */
  function ContentWords(ws: seq<string>): (r: seq<string>)
    ensures |r| <= |ws|
    ensures forall i :: 0 <= i < |r| ==> !IsNo(r[i])
    ensures forall w :: w in r <==> w in ws && !IsNo(w)
    decreases |ws|
  {
    if |ws| == 0 then []
    else
      var init := ContentWords(ws[..|ws| - 1]);
      if IsNo(ws[|ws| - 1]) then init else init + [ws[|ws| - 1]]
  }

  /** No word is lost but the "no"s: each other word is kept as many times as it
      occurs. */
  lemma {:induction false} ContentWordsCounts(ws: seq<string>)
    ensures forall w :: multiset(ContentWords(ws))[w] == if IsNo(w) then 0 else multiset(ws)[w]
    decreases |ws|
  {
    if |ws| > 0 {
      ContentWordsCounts(ws[..|ws| - 1]);
      assert ws == ws[..|ws| - 1] + [ws[|ws| - 1]];
    }
  }

  /** Every word after position `k` is a "no". */
  predicate OnlyNoAfter(ws: seq<string>, k: int) {
    forall j :: 0 <= j < |ws| && k < j ==> IsNo(ws[j])
  }

  /** The content words run out exactly when every word is a "no". */
  lemma {:induction false} NoContentIffAllNo(ws: seq<string>)
    ensures |ContentWords(ws)| == 0 <==> OnlyNoAfter(ws, -1)
    decreases |ws|
  {
    if |ws| > 0 {
      var n := |ws|;
      var init := ws[..n - 1];
      NoContentIffAllNo(init);
      if IsNo(ws[n - 1]) {
        if OnlyNoAfter(init, -1) {
          forall j | 0 <= j < n
            ensures IsNo(ws[j])
          {
            if j < n - 1 {
              assert init[j] == ws[j];
            }
          }
        }
        if OnlyNoAfter(ws, -1) {
          forall j | 0 <= j < n - 1
            ensures IsNo(init[j])
          {
            assert init[j] == ws[j];
          }
        }
      }
    }
  }

  /** When some word is not a "no", the last content word is the last such word. */
  lemma {:induction false} LastContentWord(ws: seq<string>, k: nat)
    requires k < |ws| && !IsNo(ws[k]) && OnlyNoAfter(ws, k)
    ensures |ContentWords(ws)| > 0 && ContentWords(ws)[|ContentWords(ws)| - 1] == ws[k]
    decreases |ws|
  {
    var n := |ws|;
    var init := ws[..n - 1];
    if k < n - 1 {
      assert IsNo(ws[n - 1]);
      assert init[k] == ws[k];
      assert OnlyNoAfter(init, k) by {
        forall j | 0 <= j < n - 1 && k < j
          ensures IsNo(init[j])
        {
          assert init[j] == ws[j];
        }
      }
      LastContentWord(init, k);
    }
  }

  const HelpFeelings: seq<string> := ["pain", "scared", "angry"]
  const RestlessFeelings: seq<string> := ["bored", "tired"]
  const InfinitiveActions: seq<string> := ["sleep", "run", "swim", "bath", "draw", "go"]

  /** The three polite request templates `random.choice` picks from. */
  function RequestTemplates(w: string): seq<string> {
    ["May I have " + w + ", please?", "I would like " + w + ", please.", "Can I get " + w + "?"]
  }

  /** The three requests are three different sentences, whatever the word, each with
      its own closing mark. */
  lemma RequestTemplatesDistinct(w: string)
    ensures |RequestTemplates(w)| == 3
    ensures EndsIn(RequestTemplates(w)[0], {'?'}) && EndsIn(RequestTemplates(w)[1], {'.'})
    ensures EndsIn(RequestTemplates(w)[2], {'?'})
    ensures forall i, j :: 0 <= i < j < 3 ==> RequestTemplates(w)[i] != RequestTemplates(w)[j]
  {
    var r := RequestTemplates(w);
    assert r[0][0] == 'M' && r[1][0] == 'I' && r[2][0] == 'C';
  }

  /** Some English rule fires: a word is a "no", or the last category has a rule. */
  predicate EnRuleFires(c: Context) {
    || "no" in LowerAll(c.words)
    || c.lastCategory == Of(Feeling)
    || c.lastCategory == Of(Action)
    || c.lastCategory == Of(People)
    || c.lastCategory == Of(Food)
    || c.lastCategory == Of(Object)
  }

  /** The English rule set: negation, then feeling, action, people and food/object,
      first match wins; with no match the words are returned unchanged. Every rule's
      reply ends with a full stop or a question mark. */
  function ExpandEn(c: Context, pick: Pick): (r: string)
    ensures EnRuleFires(c) ==> EndsIn(r, {'.', '?'})
    ensures !EnRuleFires(c) ==> r == FullText(c)
  {
    var w := c.lastWord;
    if "no" in LowerAll(c.words) then
      var content := ContentWords(c.words);
      if |content| > 0 then "I don't want " + Lower(content[|content| - 1]) + "."
      else "No, thank you."
    else if c.lastCategory == Of(Feeling) then
      if w in HelpFeelings then "I am feeling " + w + ", please help."
      else if w in RestlessFeelings then "I am " + w + ", I want to do something else."
      else "I feel " + w + "."
    else if c.lastCategory == Of(Action) then
      if w in InfinitiveActions then "I want to " + w + "."
      else if w == "stop" then "Please stop that immediately."
      else if w == "help" then "Please help me."
      else "I want to " + w + "."
    else if c.lastCategory == Of(People) then "I want " + w + "."
    else if c.lastCategory == Of(Food) || c.lastCategory == Of(Object) then RequestTemplates(w)[pick]
    else FullText(c)
  }

  // ---------------------------------------------------------------------------
  // Chinese rules

  const DistressFeelings: seq<string> := ["痛", "害怕", "生气"]
  const GoingActions: seq<string> := ["睡觉", "洗澡", "画画"]

  /** The Chinese baseline, set before the overriding rules are tried. */
  function ZhDefault(c: Context): string {
    "请问我可以" + FullText(c) + "吗？"
  }

  /** One of the four Chinese overriding rules fires. */
  predicate ZhOverrideFires(c: Context) {
    || (c.lastCategory == Of(Feeling) && c.lastWord in DistressFeelings)
    || c.lastCategory == Of(Action)
    || ("我" in c.words && "家" in c.words)
    || ("不" in c.words && "吃" in c.words)
  }

  /** The Chinese rule set: the baseline is assigned first, then at most one of the
      distress, action, 我+家 and 不+吃 rules overwrites it, in that order. The
      baseline ends with a question mark and every override with a full stop, so the
      baseline stands exactly when no override fires. */
  function ExpandZh(c: Context): (r: string)
    ensures EndsIn(r, {'。', '？'})
    ensures r == ZhDefault(c) <==> !ZhOverrideFires(c)
  {
    var expanded := ZhDefault(c);
    var w := c.lastWord;
    if c.lastCategory == Of(Feeling) && w in DistressFeelings then "我感到" + w + "，我很不舒服。"
    else if c.lastCategory == Of(Action) then
      if w in GoingActions then "我想去" + w + "。"
      else if w == "停" then "请停下来，我不喜欢这样。"
      else "我想" + w + "。"
    else if "我" in c.words && "家" in c.words then "我想回家了。"
    else if "不" in c.words && "吃" in c.words then "我不想吃这个。"
    else expanded
  }

  // ---------------------------------------------------------------------------
  // The engine

  /** `_ai_process`: read the sentence, then apply the rule set of the locale. */
  function Expand(tokens: seq<Token>, loc: Locale, pick: Pick): (r: string)
    ensures loc == ZH ==> EndsIn(r, {'。', '？'})
    ensures loc == EN && EnRuleFires(ExtractContext(tokens, EN)) ==> EndsIn(r, {'.', '?'})
    ensures loc == EN && !EnRuleFires(ExtractContext(tokens, EN)) ==> r == Join(Words(tokens, EN), " ")
  {
    var c := ExtractContext(tokens, loc);
    if loc == ZH then ExpandZh(c) else ExpandEn(c, pick)
  }
}
