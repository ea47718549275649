/** What the expansion engine promises, stated over the sentence itself rather
    than over the intermediate context. */
module ExpansionFacts {
  import opened Text
  import opened Vocabulary
  import opened Sentence
  import opened Expansion

  function Last(tokens: seq<Token>): Token
    requires |tokens| > 0
  {
    tokens[|tokens| - 1]
  }

  /** `ai_expand`: an empty sentence is never expanded; otherwise the engine runs on
      the sentence in the active language. */
  function AiExpand(st: AppState, pick: Pick): (r: Option<string>)
    ensures r.None? <==> |st.sentence| == 0
    ensures r.Some? && st.language == ZH ==> EndsIn(r.value, {'。', '？'})
  {
    if |st.sentence| == 0 then None else Some(Expand(st.sentence, st.language, pick))
  }

  /** What the engine itself makes of an empty sentence, which `ai_expand`'s guard
      keeps from it: nothing in English, a request for nothing in Chinese. */
  lemma EmptySentenceExpansion(pick: Pick)
    ensures Expand([], EN, pick) == ""
    ensures Expand([], ZH, pick) == "请问我可以吗？"
  {
  }

  // ---------------------------------------------------------------------------
  // English

  /** Negation outranks every category rule: whatever the last token is, a "no"
      anywhere yields a refusal of the last word that is not a "no", lowered. */
  lemma EnNegationNamesLastContentWord(tokens: seq<Token>, pick: Pick, k: nat)
    requires AnyNo(Words(tokens, EN))
    requires k < |tokens| && !IsNo(TokenText(tokens[k], EN))
    requires forall j :: k < j < |tokens| ==> IsNo(TokenText(tokens[j], EN))
    ensures Expand(tokens, EN, pick) == "I don't want " + Lower(TokenText(tokens[k], EN)) + "."
  {
    var c := ExtractContext(tokens, EN);
    LowerAllHasNo(c.words);
    LastContentWord(c.words, k);
  }

  /** A sentence of nothing but "no" is a polite refusal. */
  lemma EnAllNoIsThanks(tokens: seq<Token>, pick: Pick)
    requires |tokens| > 0
    requires forall i :: 0 <= i < |tokens| ==> IsNo(TokenText(tokens[i], EN))
    ensures Expand(tokens, EN, pick) == "No, thank you."
  {
    var c := ExtractContext(tokens, EN);
    assert IsNo(c.words[0]);
    LowerAllHasNo(c.words);
    NoContentIffAllNo(c.words);
  }

  /** Without a "no", a feeling at the end is voiced by one of three templates chosen
      by the lowered feeling word. */
  lemma EnFeelingRule(tokens: seq<Token>, pick: Pick, item: VocabItem)
    requires |tokens| > 0 && Last(tokens) == Vocab(item) && item.category == Feeling
    requires !AnyNo(Words(tokens, EN))
    ensures var w := Lower(item.en);
            Expand(tokens, EN, pick)
            == if w in {"pain", "scared", "angry"} then "I am feeling " + w + ", please help."
               else if w in {"bored", "tired"} then "I am " + w + ", I want to do something else."
               else "I feel " + w + "."
  {
    LowerAllHasNo(Words(tokens, EN));
  }

  /** Without a "no", an action at the end: "stop" and "help" have fixed replies, every
      other action becomes "I want to <action>." */
  lemma EnActionRule(tokens: seq<Token>, pick: Pick, item: VocabItem)
    requires |tokens| > 0 && Last(tokens) == Vocab(item) && item.category == Action
    requires !AnyNo(Words(tokens, EN))
    ensures var w := Lower(item.en);
            Expand(tokens, EN, pick)
            == if w == "stop" then "Please stop that immediately."
               else if w == "help" then "Please help me."
               else "I want to " + w + "."
  {
    LowerAllHasNo(Words(tokens, EN));
  }

  /** Without a "no", a person at the end becomes "I want <person>." */
  lemma EnPeopleRule(tokens: seq<Token>, pick: Pick, item: VocabItem)
    requires |tokens| > 0 && Last(tokens) == Vocab(item) && item.category == People
    requires !AnyNo(Words(tokens, EN))
    ensures Expand(tokens, EN, pick) == "I want " + Lower(item.en) + "."
  {
    LowerAllHasNo(Words(tokens, EN));
  }

  /** The English request case: no "no", and the last token is food or an object. */
  predicate EnRequest(tokens: seq<Token>) {
    && |tokens| > 0
    && !AnyNo(Words(tokens, EN))
    && Last(tokens).Vocab?
    && Last(tokens).item.category in {Food, Object}
  }

  /** In the request case the reply is the picked one of three request templates, and
      the three picks give three different replies. */
  lemma EnRequestRule(tokens: seq<Token>, p: Pick, q: Pick)
    requires EnRequest(tokens)
    ensures Expand(tokens, EN, p) == RequestTemplates(Lower(Last(tokens).item.en))[p]
    ensures Expand(tokens, EN, p) == Expand(tokens, EN, q) <==> p == q
  {
    LowerAllHasNo(Words(tokens, EN));
    var ts := RequestTemplates(Lower(Last(tokens).item.en));
    assert ts[0][0] == 'M' && ts[1][0] == 'I' && ts[2][0] == 'C';
  }

  /** Apart from the English request case, the engine is deterministic: the pick does
      not matter. */
  lemma PickMattersOnlyForRequests(tokens: seq<Token>, loc: Locale, p: Pick, q: Pick)
    requires loc == ZH || !EnRequest(tokens)
    ensures Expand(tokens, loc, p) == Expand(tokens, loc, q)
  {
    if loc == EN && |tokens| > 0 && !AnyNo(Words(tokens, EN)) {
      LowerAllHasNo(Words(tokens, EN));
    }
  }

  /** Some English rule fires exactly when a word is a "no" or the last token comes
      from the catalog. */
  predicate EnRuleApplies(tokens: seq<Token>) {
    AnyNo(Words(tokens, EN)) || (|tokens| > 0 && Last(tokens).Vocab?)
  }

  /** Every English rule ends its reply with a full stop or question mark; when none
      fires the words come back unchanged. */
  lemma EnRuleOrIdentity(tokens: seq<Token>, pick: Pick)
    ensures EnRuleApplies(tokens) ==> EndsIn(Expand(tokens, EN, pick), {'.', '?'})
    ensures !EnRuleApplies(tokens) ==> Expand(tokens, EN, pick) == Join(Words(tokens, EN), " ")
  {
    var c := ExtractContext(tokens, EN);
    LowerAllHasNo(c.words);
    if |tokens| > 0 && Last(tokens).Vocab? {
      match Last(tokens).item.category
      case People =>
      case Action =>
      case Food =>
      case Object =>
      case Feeling =>
    }
  }

  /** Typed text at the end and no "no": the expansion is exactly what playing the
      sentence would say. */
  lemma EnTypedEndIsPlayedText(st: AppState, pick: Pick)
    requires st.language == EN && |st.sentence| > 0 && Last(st.sentence).Manual?
    requires !AnyNo(Words(st.sentence, EN))
    ensures PlayText(st) == Some(Expand(st.sentence, EN, pick))
  {
    EnRuleOrIdentity(st.sentence, pick);
  }

  // ---------------------------------------------------------------------------
  // Chinese

  /** The Chinese baseline "请问我可以…吗？" stands exactly when no overriding rule fires. */
  lemma ZhDefaultUnlessOverride(tokens: seq<Token>, pick: Pick)
    ensures var c := ExtractContext(tokens, ZH);
            Expand(tokens, ZH, pick) == "请问我可以" + Join(Words(tokens, ZH), " ") + "吗？"
            <==> !ZhOverrideFires(c)
  {
  }

  /** A distress feeling (痛, 害怕, 生气) at the end outranks every other Chinese rule. */
  lemma ZhDistressRule(tokens: seq<Token>, pick: Pick, item: VocabItem)
    requires |tokens| > 0 && Last(tokens) == Vocab(item) && item.category == Feeling
    requires Lower(item.zh) in {"痛", "害怕", "生气"}
    ensures Expand(tokens, ZH, pick) == "我感到" + Lower(item.zh) + "，我很不舒服。"
  {
  }

  /** An action at the end outranks the word-combination rules, whatever the other words. */
  lemma ZhActionRule(tokens: seq<Token>, pick: Pick, item: VocabItem)
    requires |tokens| > 0 && Last(tokens) == Vocab(item) && item.category == Action
    ensures var w := Lower(item.zh);
            Expand(tokens, ZH, pick)
            == if w in {"睡觉", "洗澡", "画画"} then "我想去" + w + "。"
               else if w == "停" then "请停下来，我不喜欢这样。"
               else "我想" + w + "。"
  {
  }

  /** With no distress feeling or action at the end, the whole words 我 and 家 together
      mean going home, and this outranks 不 with 吃. */
  lemma ZhHomeRule(tokens: seq<Token>, pick: Pick)
    requires |tokens| > 0 && TagOf(Last(tokens)) != Of(Action)
    requires !(TagOf(Last(tokens)) == Of(Feeling) && LastWordOf(Last(tokens), ZH) in DistressFeelings)
    requires "我" in Words(tokens, ZH) && "家" in Words(tokens, ZH)
    ensures Expand(tokens, ZH, pick) == "我想回家了。"
  {
  }

  /** With none of the rules above firing, the whole words 不 and 吃 together refuse food. */
  lemma ZhNotEatRule(tokens: seq<Token>, pick: Pick)
    requires |tokens| > 0 && TagOf(Last(tokens)) != Of(Action)
    requires !(TagOf(Last(tokens)) == Of(Feeling) && LastWordOf(Last(tokens), ZH) in DistressFeelings)
    requires !("我" in Words(tokens, ZH) && "家" in Words(tokens, ZH))
    requires "不" in Words(tokens, ZH) && "吃" in Words(tokens, ZH)
    ensures Expand(tokens, ZH, pick) == "我不想吃这个。"
  {
  }

  // ---------------------------------------------------------------------------
  // Both locales

  /** The rule sets are separate: a reply from an English rule is never a Chinese reply. */
  lemma LocalesNeverShareReplies(en: seq<Token>, zh: seq<Token>, p: Pick, q: Pick)
    requires EnRuleApplies(en)
    ensures Expand(en, EN, p) != Expand(zh, ZH, q)
  {
    EnRuleOrIdentity(en, p);
  }
}
