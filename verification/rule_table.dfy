/** A second, table-driven statement of the two rule sets: an ordered list of
    rules, each a condition and a reply, evaluated first-match. The English table
    falls back to the words unchanged; the Chinese table falls back to the
    baseline request. The lemmas below show the if/elif chains of the engine
    compute exactly these tables, and that the order of the table matters. */
module RuleTable {
  import opened Text
  import opened Vocabulary
  import opened Sentence
  import opened Expansion

  /** The position of the first rule that applies, or `|rules|` when none does. */
  function FirstApplying<R>(rules: seq<R>, applies: R -> bool): (k: nat)
    ensures k <= |rules|
    ensures forall j :: 0 <= j < k ==> !applies(rules[j])
    ensures k < |rules| ==> applies(rules[k])
    decreases |rules|
  {
    if |rules| == 0 then 0
    else if applies(rules[0]) then 0
    else 1 + FirstApplying(rules[1..], applies)
  }

  // ---------------------------------------------------------------------------
  // English

  datatype EnRule = Negation | FeelingRule | ActionRule | PeopleRule | RequestRule

  predicate EnApplies(r: EnRule, c: Context) {
    match r
    case Negation => exists i :: 0 <= i < |c.words| && IsNo(c.words[i])
    case FeelingRule => c.lastCategory == Of(Feeling)
    case ActionRule => c.lastCategory == Of(Action)
    case PeopleRule => c.lastCategory == Of(People)
    case RequestRule => c.lastCategory.Of? && c.lastCategory.cat in {Food, Object}
  }

  /** The last word that is not a "no", if there is one. */
  function LastNonNo(ws: seq<string>): (r: Option<string>)
    ensures r.None? <==> forall i :: 0 <= i < |ws| ==> IsNo(ws[i])
    ensures r.Some? ==> r.value in ws && !IsNo(r.value)
    decreases |ws|
  {
    if |ws| == 0 then None
    else if !IsNo(ws[|ws| - 1]) then Some(ws[|ws| - 1])
    else
      var r := LastNonNo(ws[..|ws| - 1]);
      assert forall i :: 0 <= i < |ws| - 1 ==> ws[..|ws| - 1][i] == ws[i];
      r
  }

  function EnReply(r: EnRule, c: Context, pick: Pick): string {
    var w := c.lastWord;
    match r
    case Negation =>
      (match LastNonNo(c.words)
       case Some(content) => "I don't want " + Lower(content) + "."
       case None => "No, thank you.")
    case FeelingRule =>
      if w in {"pain", "scared", "angry"} then "I am feeling " + w + ", please help."
      else if w in {"bored", "tired"} then "I am " + w + ", I want to do something else."
      else "I feel " + w + "."
    case ActionRule =>
      if w == "stop" then "Please stop that immediately."
      else if w == "help" then "Please help me."
      else "I want to " + w + "."
    case PeopleRule => "I want " + w + "."
    case RequestRule => RequestTemplates(w)[pick]
  }

  const EnOrder: seq<EnRule> := [Negation, FeelingRule, ActionRule, PeopleRule, RequestRule]

  /** Evaluates an English rule table first-match, falling back to the words. */
  function EnByTable(rules: seq<EnRule>, c: Context, pick: Pick): string {
    var k := FirstApplying(rules, r => EnApplies(r, c));
    if k < |rules| then EnReply(rules[k], c, pick) else FullText(c)
  }

  lemma {:induction false} LastNonNoIsLastContentWord(ws: seq<string>)
    ensures LastNonNo(ws).Some? <==> |ContentWords(ws)| > 0
    ensures LastNonNo(ws).Some? ==> LastNonNo(ws).value == ContentWords(ws)[|ContentWords(ws)| - 1]
    decreases |ws|
  {
    if |ws| > 0 && IsNo(ws[|ws| - 1]) {
      LastNonNoIsLastContentWord(ws[..|ws| - 1]);
    }
  }

  /** Which English rule the chain picks: negation, feeling, action, people, request,
      or none (5). */
  lemma EnFirstRule(c: Context)
    ensures FirstApplying(EnOrder, r => EnApplies(r, c))
            == if EnApplies(Negation, c) then 0
               else if EnApplies(FeelingRule, c) then 1
               else if EnApplies(ActionRule, c) then 2
               else if EnApplies(PeopleRule, c) then 3
               else if EnApplies(RequestRule, c) then 4
               else 5
  {
    assert EnOrder[0] == Negation && EnOrder[1] == FeelingRule && EnOrder[2] == ActionRule;
    assert EnOrder[3] == PeopleRule && EnOrder[4] == RequestRule;
  }

  /** The English if/elif chain is the first-match evaluation of the table
      negation, feeling, action, people, request. */
  lemma ExpandEnIsTable(c: Context, pick: Pick)
    ensures ExpandEn(c, pick) == EnByTable(EnOrder, c, pick)
  {
    LowerAllHasNo(c.words);
    EnFirstRule(c);
    if EnApplies(Negation, c) {
      LastNonNoIsLastContentWord(c.words);
    } else if EnApplies(FeelingRule, c) {
      assert EnByTable(EnOrder, c, pick) == EnReply(FeelingRule, c, pick);
    } else if EnApplies(ActionRule, c) {
      assert EnByTable(EnOrder, c, pick) == EnReply(ActionRule, c, pick);
    } else if EnApplies(PeopleRule, c) {
      assert EnByTable(EnOrder, c, pick) == EnReply(PeopleRule, c, pick);
    } else if EnApplies(RequestRule, c) {
      assert EnByTable(EnOrder, c, pick) == EnReply(RequestRule, c, pick);
    }
  }

  /** The four category rules test the last category, so at most one of them applies:
      their order among themselves never matters. */
  lemma CategoryRulesExclusive(c: Context)
    ensures forall r1, r2 ::
              r1 != Negation && r2 != Negation && r1 != r2 && EnApplies(r1, c) ==> !EnApplies(r2, c)
  {
  }

  /** The place of negation does matter: whenever a sentence holds a "no" and ends in a
      feeling (say Book, No), trying the feeling rule first changes the reply. */
  lemma NegationMustPrecedeFeeling(c: Context, pick: Pick)
    requires EnApplies(Negation, c) && c.lastCategory == Of(Feeling)
    ensures EnByTable(EnOrder, c, pick)
            != EnByTable([FeelingRule, Negation, ActionRule, PeopleRule, RequestRule], c, pick)
  {
    EnFirstRule(c);
    var swapped := [FeelingRule, Negation, ActionRule, PeopleRule, RequestRule];
    assert swapped[0] == FeelingRule;
    var refusal := EnReply(Negation, c, pick);
    var feeling := EnReply(FeelingRule, c, pick);
    assert EnByTable(swapped, c, pick) == feeling;
    assert |feeling| > 2 && feeling[0] == 'I' && feeling[2] in {'a', 'f'};
    if LastNonNo(c.words).None? {
      assert refusal[0] == 'N';
    } else {
      assert refusal[2] == 'd';
    }
  }

  // ---------------------------------------------------------------------------
  // Chinese

  datatype ZhRule = Distress | ZhAction | Home | NotEat

  predicate ZhApplies(r: ZhRule, c: Context) {
    match r
    case Distress => c.lastCategory == Of(Feeling) && c.lastWord in {"痛", "害怕", "生气"}
    case ZhAction => c.lastCategory == Of(Action)
    case Home => "我" in c.words && "家" in c.words
    case NotEat => "不" in c.words && "吃" in c.words
  }

  function ZhReply(r: ZhRule, c: Context): string {
    var w := c.lastWord;
    match r
    case Distress => "我感到" + w + "，我很不舒服。"
    case ZhAction =>
      if w in {"睡觉", "洗澡", "画画"} then "我想去" + w + "。"
      else if w == "停" then "请停下来，我不喜欢这样。"
      else "我想" + w + "。"
    case Home => "我想回家了。"
    case NotEat => "我不想吃这个。"
  }

  const ZhOrder: seq<ZhRule> := [Distress, ZhAction, Home, NotEat]

  /** Evaluates a Chinese rule table first-match, falling back to the baseline request. */
  function ZhByTable(rules: seq<ZhRule>, c: Context): string {
    var k := FirstApplying(rules, r => ZhApplies(r, c));
    if k < |rules| then ZhReply(rules[k], c) else ZhDefault(c)
  }

  /** The Chinese "baseline, then overwrite" code is the first-match evaluation of the
      table distress, action, 我+家, 不+吃 with the baseline as the fallback. */
  lemma ExpandZhIsTable(c: Context)
    ensures ExpandZh(c) == ZhByTable(ZhOrder, c)
  {
    var k := FirstApplying(ZhOrder, r => ZhApplies(r, c));
    assert ZhOrder[0] == Distress && ZhOrder[1] == ZhAction && ZhOrder[2] == Home && ZhOrder[3] == NotEat;
    if ZhApplies(Distress, c) {
      assert k == 0;
    } else if ZhApplies(ZhAction, c) {
      assert k == 1;
    } else if ZhApplies(Home, c) {
      assert k == 2;
    } else if ZhApplies(NotEat, c) {
      assert k == 3;
    } else {
      assert k == 4;
    }
  }

  /** Order matters in Chinese too: whenever the sentence ends in an action and holds
      不 and 吃 (say 不 吃, answered 我想吃。), trying the 不+吃 rule first changes the reply. */
  lemma ActionMustPrecedeNotEat(c: Context)
    requires c.lastCategory == Of(Action) && "不" in c.words && "吃" in c.words
    ensures ZhByTable(ZhOrder, c) != ZhByTable([NotEat, Distress, ZhAction, Home], c)
  {
    var swapped := [NotEat, Distress, ZhAction, Home];
    assert swapped[0] == NotEat;
    assert ZhOrder[0] == Distress && ZhOrder[1] == ZhAction;
    var action := ZhReply(ZhAction, c);
    assert ZhByTable(ZhOrder, c) == action;
    assert ZhByTable(swapped, c) == "我不想吃这个。";
    assert |action| > 1 && (action[0] == '请' || action[1] == '想');
  }
}
