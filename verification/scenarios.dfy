/** Worked examples over real catalog items, one per rule. */
module Scenarios {
  import opened Text
  import opened Vocabulary
  import opened Sentence
  import opened Expansion
  import opened ExpansionFacts

  /** A card that is not a "no" followed by one that is: the first card is refused. */
  lemma EnRefusePair(a: VocabItem, b: VocabItem, pick: Pick)
    requires !IsNo(a.en) && IsNo(b.en)
    ensures Expand([Vocab(a), Vocab(b)], EN, pick) == "I don't want " + Lower(a.en) + "."
  {
    var ts := [Vocab(a), Vocab(b)];
    assert IsNo(Words(ts, EN)[1]);
    EnNegationNamesLastContentWord(ts, pick, 0);
  }

  /** I, Want, Sleep: the last token is an action, so "I want to sleep." */
  lemma SleepScenario(pick: Pick)
    ensures Expand([Vocab(PeopleItems[0]), Vocab(ActionItems[0]), Vocab(ActionItems[7])], EN, pick)
            == "I want to sleep."
  {
    var ts := [Vocab(PeopleItems[0]), Vocab(ActionItems[0]), Vocab(ActionItems[7])];
    assert !IsNo("I") && !IsNo("Want") && !IsNo("Sleep");
    assert !AnyNo(Words(ts, EN));
    EnActionRule(ts, pick, ActionItems[7]);
    assert Lower("Sleep") == "sleep";
  }

  /** Pain alone asks for help. */
  lemma PainScenario(pick: Pick)
    ensures Expand([Vocab(FeelingItems[2])], EN, pick) == "I am feeling pain, please help."
  {
    var pain := FeelingItems[2];
    assert Lower(pain.en) == "pain";
    assert !AnyNo(Words([Vocab(pain)], EN));
    EnFeelingRule([Vocab(pain)], pick, pain);
  }

  /** The Book card, then the No card: "No" is a feeling, yet negation answers first. */
  // The cards come in as parameters fixed by the requires: with the catalog entries
  // written inline, the verifier evaluates the whole engine on literals and runs
  // out of resources.
  lemma BookNoScenario(book: VocabItem, no: VocabItem, pick: Pick)
    requires book == ObjectItems[2] && no == FeelingItems[5]
    ensures Expand([Vocab(book), Vocab(no)], EN, pick) == "I don't want book."
  {
    assert Lower("Book") == "book" && Lower("No") == "no";
    EnRefusePair(book, no, pick);
  }

  /** Typed text with no rule to fire comes back unchanged. */
  lemma TypedTextScenario(pick: Pick)
    ensures Expand([Manual("banana split")], EN, pick) == "banana split"
  {
    var ts := [Manual("banana split")];
    assert !IsNo("banana split");
    assert !AnyNo(Words(ts, EN));
    EnRuleOrIdentity(ts, pick);
  }

  /** 我, 停: the action 停 has its own reply. */
  lemma StopScenario(pick: Pick)
    ensures Expand([Vocab(PeopleItems[0]), Vocab(ActionItems[11])], ZH, pick) == "请停下来，我不喜欢这样。"
  {
    ZhActionRule([Vocab(PeopleItems[0]), Vocab(ActionItems[11])], pick, ActionItems[11]);
    assert Lower("停") == "停";
  }

  /** 我, 家: no category rule, so the 我+家 combination answers. */
  lemma HomeScenario(pick: Pick)
    ensures Expand([Vocab(PeopleItems[0]), Vocab(ObjectItems[4])], ZH, pick) == "我想回家了。"
  {
    var ts := [Vocab(PeopleItems[0]), Vocab(ObjectItems[4])];
    assert Words(ts, ZH) == ["我", "家"];
    ZhHomeRule(ts, pick);
  }

  /** 不, 吃 ends in an action, so the action rule answers, not the 不+吃 rule. */
  lemma NotEatEndsInActionScenario(pick: Pick)
    ensures Expand([Vocab(FeelingItems[5]), Vocab(ActionItems[1])], ZH, pick) == "我想吃。"
  {
    ZhActionRule([Vocab(FeelingItems[5]), Vocab(ActionItems[1])], pick, ActionItems[1]);
    assert Lower("吃") == "吃";
  }

  /** 吃, 不: 不 is not a distress feeling, so the 不+吃 combination answers. */
  lemma EatNotScenario(pick: Pick)
    ensures Expand([Vocab(ActionItems[1]), Vocab(FeelingItems[5])], ZH, pick) == "我不想吃这个。"
  {
    var ts := [Vocab(ActionItems[1]), Vocab(FeelingItems[5])];
    assert Words(ts, ZH) == ["吃", "不"];
    assert Lower("不") == "不";
    ZhNotEatRule(ts, pick);
  }

  /** Water: one of the three requests, the first for pick 0. */
  lemma WaterScenario()
    ensures Expand([Vocab(FoodItems[0])], EN, 0) == "May I have water, please?"
  {
    var ts := [Vocab(FoodItems[0])];
    assert !IsNo("Water");
    assert !AnyNo(Words(ts, EN));
    EnRequestRule(ts, 0, 0);
    assert Lower("Water") == "water";
  }

  /** The people rule lowers the pronoun too: "I" alone becomes "I want i." */
  lemma PronounScenario(pick: Pick)
    ensures Expand([Vocab(PeopleItems[0])], EN, pick) == "I want i."
  {
    var ts := [Vocab(PeopleItems[0])];
    assert !IsNo("I");
    assert !AnyNo(Words(ts, EN));
    EnPeopleRule(ts, pick, PeopleItems[0]);
    assert Lower("I") == "i";
  }
}
