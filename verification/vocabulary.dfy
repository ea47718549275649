/** The static vocabulary catalog (`vocabulary_db`) and the category filter the
    pictogram grid shows. */
module Vocabulary {
  import opened Text

  datatype Locale = EN | ZH

  datatype Category = People | Action | Food | Object | Feeling

  /** One catalog entry: an id, its Chinese and English text, its pictogram and its category. */
  datatype VocabItem = VocabItem(id: int, zh: string, en: string, emoji: string, category: Category)
  {
    /** The entry's text in the given locale (`item[current_language]`). */
    function TextIn(loc: Locale): string {
      match loc
      case EN => en
      case ZH => zh
    }
  }

  /** `vocabulary_db`, in declaration order, one block per category as the catalog groups them. */
  const PeopleItems: seq<VocabItem> := [
    VocabItem(101, "我", "I", "🧑", People),
    VocabItem(102, "爸爸", "Dad", "👨", People),
    VocabItem(103, "妈妈", "Mom", "👩", People),
    VocabItem(104, "老师", "Teacher", "👩‍🏫", People),
    VocabItem(105, "医生", "Doctor", "👨‍⚕️", People),
    VocabItem(106, "朋友", "Friend", "👫", People)
  ]

  const ActionItems: seq<VocabItem> := [
    VocabItem(201, "想要", "Want", "🤲", Action),
    VocabItem(202, "吃", "Eat", "🍽️", Action),
    VocabItem(203, "喝", "Drink", "🥤", Action),
    VocabItem(204, "去", "Go", "🚶", Action),
    VocabItem(205, "玩", "Play", "🎲", Action),
    VocabItem(206, "看", "Look", "👀", Action),
    VocabItem(207, "帮忙", "Help", "🆘", Action),
    VocabItem(208, "睡觉", "Sleep", "🛌", Action),
    VocabItem(209, "跑", "Run", "🏃", Action),
    VocabItem(210, "画画", "Draw", "🎨", Action),
    VocabItem(211, "洗澡", "Bath", "🛁", Action),
    VocabItem(212, "停", "Stop", "🛑", Action)
  ]

  const FoodItems: seq<VocabItem> := [
    VocabItem(301, "水", "Water", "💧", Food),
    VocabItem(302, "饭", "Rice", "🍚", Food),
    VocabItem(303, "苹果", "Apple", "🍎", Food),
    VocabItem(304, "牛奶", "Milk", "🥛", Food),
    VocabItem(305, "饼干", "Cookie", "🍪", Food),
    VocabItem(306, "果汁", "Juice", "🍹", Food),
    VocabItem(307, "面包", "Bread", "🍞", Food)
  ]

  const ObjectItems: seq<VocabItem> := [
    VocabItem(401, "厕所", "Toilet", "🚽", Object),
    VocabItem(402, "平板", "Tablet", "📱", Object),
    VocabItem(403, "书", "Book", "📖", Object),
    VocabItem(404, "床", "Bed", "🛏️", Object),
    VocabItem(405, "家", "Home", "🏠", Object),
    VocabItem(406, "公园", "Park", "🌳", Object)
  ]

  const FeelingItems: seq<VocabItem> := [
    VocabItem(501, "开心", "Happy", "😄", Feeling),
    VocabItem(502, "难过", "Sad", "😢", Feeling),
    VocabItem(503, "痛", "Pain", "🤕", Feeling),
    VocabItem(504, "累", "Tired", "😫", Feeling),
    VocabItem(505, "好", "Good", "👍", Feeling),
    VocabItem(506, "不", "No", "🙅", Feeling),
    VocabItem(507, "生气", "Angry", "😠", Feeling),
    VocabItem(508, "害怕", "Scared", "😱", Feeling),
    VocabItem(509, "无聊", "Bored", "😐", Feeling),
    VocabItem(510, "兴奋", "Excited", "🤩", Feeling)
  ]

  const Catalog: seq<VocabItem> := PeopleItems + ActionItems + FoodItems + ObjectItems + FeelingItems

  /** The hundreds digit of an id names its category. */
  function CategoryCode(c: Category): int {
    match c
    case People => 1
    case Action => 2
    case Food => 3
    case Object => 4
    case Feeling => 5
  }

  /** The declaration block of a category. */
  function Block(c: Category): seq<VocabItem> {
    match c
    case People => PeopleItems
    case Action => ActionItems
    case Food => FoodItems
    case Object => ObjectItems
    case Feeling => FeelingItems
  }

  predicate AllOf(block: seq<VocabItem>, cat: Category) {
    forall i :: 0 <= i < |block| ==> block[i].category == cat
  }

  /** Every entry of `block` has category `cat` and id `100 * code + position + 1`. */
  predicate Numbered(block: seq<VocabItem>, cat: Category) {
    && |block| < 100
    && AllOf(block, cat)
    && forall i :: 0 <= i < |block| ==> block[i].id == CategoryCode(cat) * 100 + i + 1
  }

  lemma PeopleNumbered() ensures Numbered(PeopleItems, People) {}
  lemma ActionNumbered() ensures Numbered(ActionItems, Action) {}
  lemma FoodNumbered() ensures Numbered(FoodItems, Food) {}
  lemma ObjectNumbered() ensures Numbered(ObjectItems, Object) {}
  lemma FeelingNumbered() ensures Numbered(FeelingItems, Feeling) {}

  lemma BlocksNumbered()
    ensures Numbered(PeopleItems, People)
    ensures Numbered(ActionItems, Action)
    ensures Numbered(FoodItems, Food)
    ensures Numbered(ObjectItems, Object)
    ensures Numbered(FeelingItems, Feeling)
  {
    PeopleNumbered();
    ActionNumbered();
    FoodNumbered();
    ObjectNumbered();
    FeelingNumbered();
  }

  predicate IdsIncreasing(items: seq<VocabItem>) {
    forall i :: 0 <= i < |items| - 1 ==> items[i].id < items[i + 1].id
  }

  predicate IdsUnique(items: seq<VocabItem>) {
    forall i, j :: 0 <= i < |items| && 0 <= j < |items| && i != j ==> items[i].id != items[j].id
  }

  lemma {:induction false} IncreasingIdsAreUnique(items: seq<VocabItem>)
    requires IdsIncreasing(items)
    ensures forall i, j :: 0 <= i < j < |items| ==> items[i].id < items[j].id
    ensures IdsUnique(items)
    decreases |items|
  {
    if |items| > 1 {
      IncreasingIdsAreUnique(items[1..]);
      forall j | 1 <= j < |items|
        ensures items[0].id < items[j].id
      {
        assert items[0].id < items[1].id;
        if j > 1 {
          assert items[1..][0].id < items[1..][j - 1].id;
        }
      }
      forall i, j | 0 <= i < j < |items|
        ensures items[i].id < items[j].id
      {
        if i > 0 {
          assert items[1..][i - 1].id < items[1..][j - 1].id;
        }
      }
    }
  }

  lemma IncreasingConcat(a: seq<VocabItem>, b: seq<VocabItem>)
    requires IdsIncreasing(a) && IdsIncreasing(b)
    requires |a| > 0 && |b| > 0 && a[|a| - 1].id < b[0].id
    ensures IdsIncreasing(a + b)
  {
    forall i | 0 <= i < |a + b| - 1
      ensures (a + b)[i].id < (a + b)[i + 1].id
    {
      if i == |a| - 1 {
        assert (a + b)[i] == a[|a| - 1] && (a + b)[i + 1] == b[0];
      } else if i < |a| - 1 {
        assert (a + b)[i] == a[i] && (a + b)[i + 1] == a[i + 1];
      } else {
        assert (a + b)[i] == b[i - |a|] && (a + b)[i + 1] == b[i - |a| + 1];
      }
    }
  }

  /** The catalog ids increase strictly, from 101 (I) to 510 (Excited). */
  lemma CatalogIdsIncreasing()
    ensures IdsIncreasing(Catalog)
    ensures Catalog[0].id == 101 && Catalog[|Catalog| - 1].id == 510
  {
    BlocksNumbered();
    var c2 := PeopleItems + ActionItems;
    var c3 := c2 + FoodItems;
    var c4 := c3 + ObjectItems;
    IncreasingConcat(PeopleItems, ActionItems);
    IncreasingConcat(c2, FoodItems);
    IncreasingConcat(c3, ObjectItems);
    IncreasingConcat(c4, FeelingItems);
  }

  /** An id's hundreds digit is the code of the block it is declared in. */
  lemma {:induction false} NumberedCodes(block: seq<VocabItem>, cat: Category)
    requires Numbered(block, cat)
    ensures forall i :: 0 <= i < |block| ==> block[i].id / 100 == CategoryCode(block[i].category)
  {
    forall i | 0 <= i < |block|
      ensures block[i].id / 100 == CategoryCode(block[i].category)
    {
      assert block[i].id == CategoryCode(cat) * 100 + (i + 1) && 0 < i + 1 < 100;
    }
  }

  lemma {:induction false} CodesConcat(a: seq<VocabItem>, b: seq<VocabItem>)
    requires forall i :: 0 <= i < |a| ==> a[i].id / 100 == CategoryCode(a[i].category)
    requires forall i :: 0 <= i < |b| ==> b[i].id / 100 == CategoryCode(b[i].category)
    ensures forall i :: 0 <= i < |a + b| ==> (a + b)[i].id / 100 == CategoryCode((a + b)[i].category)
  {
    forall i | 0 <= i < |a + b|
      ensures (a + b)[i].id / 100 == CategoryCode((a + b)[i].category)
    {
      if i < |a| {
        assert (a + b)[i] == a[i];
      } else {
        assert (a + b)[i] == b[i - |a|];
      }
    }
  }

  lemma CatalogIdCodes()
    ensures forall i :: 0 <= i < |Catalog| ==> Catalog[i].id / 100 == CategoryCode(Catalog[i].category)
  {
    BlocksNumbered();
    NumberedCodes(PeopleItems, People);
    NumberedCodes(ActionItems, Action);
    NumberedCodes(FoodItems, Food);
    NumberedCodes(ObjectItems, Object);
    NumberedCodes(FeelingItems, Feeling);
    CodesConcat(PeopleItems, ActionItems);
    CodesConcat(PeopleItems + ActionItems, FoodItems);
    CodesConcat(PeopleItems + ActionItems + FoodItems, ObjectItems);
    CodesConcat(PeopleItems + ActionItems + FoodItems + ObjectItems, FeelingItems);
  }

  /** The catalog is declared in increasing id order, every id's hundreds digit is
      its category's code, and no id occurs twice. */
  lemma CatalogWellFormed()
    ensures |Catalog| == 41
    ensures IdsIncreasing(Catalog)
    ensures forall i :: 0 <= i < |Catalog| ==> Catalog[i].id / 100 == CategoryCode(Catalog[i].category)
    ensures IdsUnique(Catalog)
  {
    CatalogIdsIncreasing();
    CatalogIdCodes();
    IncreasingIdsAreUnique(Catalog);
  }

  /** `a` occurs in `b` in order, possibly with gaps. */
  predicate IsSubsequence<T(==)>(a: seq<T>, b: seq<T>)
    decreases |b|
  {
    if |a| == 0 then true
    else if |b| == 0 then false
    else if a[0] == b[0] then IsSubsequence(a[1..], b[1..])
    else IsSubsequence(a, b[1..])
  }

  /** The items of one category, in their original order. */
  function FilterCategory(items: seq<VocabItem>, cat: Category): (r: seq<VocabItem>)
    ensures forall i :: 0 <= i < |r| ==> r[i].category == cat
    ensures IsSubsequence(r, items)
    ensures |r| <= |items|
    decreases |items|
  {
    if |items| == 0 then []
    else if items[0].category == cat then [items[0]] + FilterCategory(items[1..], cat)
    else FilterCategory(items[1..], cat)
  }

  /** The filter keeps exactly the items of the category. */
  lemma {:induction false} FilterMembership(items: seq<VocabItem>, cat: Category)
    ensures forall x :: x in FilterCategory(items, cat) <==> x in items && x.category == cat
    decreases |items|
  {
    if |items| > 0 {
      FilterMembership(items[1..], cat);
      assert items == [items[0]] + items[1..];
    }
  }

  lemma {:induction false} FilterConcat(a: seq<VocabItem>, b: seq<VocabItem>, cat: Category)
    ensures FilterCategory(a + b, cat) == FilterCategory(a, cat) + FilterCategory(b, cat)
    decreases |a|
  {
    if |a| == 0 {
      assert a + b == b;
    } else {
      assert (a + b)[1..] == a[1..] + b;
      FilterConcat(a[1..], b, cat);
    }
  }

  lemma {:induction false} FilterUniform(block: seq<VocabItem>, cat: Category, other: Category)
    requires AllOf(block, cat)
    ensures FilterCategory(block, other) == if other == cat then block else []
    decreases |block|
  {
    if |block| > 0 {
      FilterUniform(block[1..], cat, other);
      assert [block[0]] + block[1..] == block;
    }
  }

  /** The items the grid shows for a category (`render_grid`), in catalog order. */
  function ByCategory(cat: Category): (r: seq<VocabItem>)
    ensures forall i :: 0 <= i < |r| ==> r[i].category == cat
    ensures IsSubsequence(r, Catalog)
  {
    FilterCategory(Catalog, cat)
  }

  /** A grid page holds every catalog item of its category and nothing else. */
  lemma ByCategoryExact(cat: Category)
    ensures forall x :: x in ByCategory(cat) <==> x in Catalog && x.category == cat
  {
    FilterMembership(Catalog, cat);
  }

  /** A subsequence of an id-increasing list is id-increasing, so every grid page keeps
      catalog order and shows no id twice. */
  lemma {:induction false} SubsequenceKeepsIdOrder(a: seq<VocabItem>, b: seq<VocabItem>)
    requires IsSubsequence(a, b)
    requires IdsIncreasing(b)
    ensures IdsIncreasing(a)
    ensures |a| > 0 ==> |b| > 0 && b[0].id <= a[0].id
    decreases |b|
  {
    if |a| > 0 {
      assert |b| > 0;
      assert IdsIncreasing(b[1..]) by {
        forall i | 0 <= i < |b[1..]| - 1
          ensures b[1..][i].id < b[1..][i + 1].id
        {
          assert b[1..][i] == b[i + 1] && b[1..][i + 1] == b[i + 2];
        }
      }
      if a[0] == b[0] {
        SubsequenceKeepsIdOrder(a[1..], b[1..]);
        if |a| > 1 {
          assert b[0].id < b[1].id;
        }
      } else {
        SubsequenceKeepsIdOrder(a, b[1..]);
        assert b[0].id < b[1].id;
      }
    }
  }

  lemma ByCategoryOrdered(cat: Category)
    ensures IdsIncreasing(ByCategory(cat))
    ensures IdsUnique(ByCategory(cat))
  {
    CatalogWellFormed();
    SubsequenceKeepsIdOrder(ByCategory(cat), Catalog);
    IncreasingIdsAreUnique(ByCategory(cat));
  }

  lemma FilterFiveConcat(p: seq<VocabItem>, a: seq<VocabItem>, f: seq<VocabItem>,
                         o: seq<VocabItem>, e: seq<VocabItem>, cat: Category)
    ensures FilterCategory(p + a + f + o + e, cat)
            == FilterCategory(p, cat) + FilterCategory(a, cat) + FilterCategory(f, cat)
               + FilterCategory(o, cat) + FilterCategory(e, cat)
  {
    FilterConcat(p + a + f + o, e, cat);
    FilterConcat(p + a + f, o, cat);
    FilterConcat(p + a, f, cat);
    FilterConcat(p, a, cat);
  }

  /** Filtering five category-uniform blocks picks out the block of the category. */
  lemma FilterFiveBlocks(p: seq<VocabItem>, a: seq<VocabItem>, f: seq<VocabItem>,
                         o: seq<VocabItem>, e: seq<VocabItem>, cat: Category)
    requires AllOf(p, People) && AllOf(a, Action) && AllOf(f, Food) && AllOf(o, Object) && AllOf(e, Feeling)
    ensures FilterCategory(p + a + f + o + e, cat)
            == match cat case People => p case Action => a case Food => f case Object => o case Feeling => e
  {
    FilterFiveConcat(p, a, f, o, e, cat);
    FilterUniform(p, People, cat);
    FilterUniform(a, Action, cat);
    FilterUniform(f, Food, cat);
    FilterUniform(o, Object, cat);
    FilterUniform(e, Feeling, cat);
    match cat
    case People => assert p + [] + [] + [] + [] == p;
    case Action => assert [] + a + [] + [] + [] == a;
    case Food => assert [] + [] + f + [] + [] == f;
    case Object => assert [] + [] + [] + o + [] == o;
    case Feeling => assert [] + [] + [] + [] + e == e;
  }

  /** The grid page of a category is exactly that category's declaration block. */
  lemma ByCategoryIsBlock(cat: Category)
    ensures ByCategory(cat) == Block(cat)
  {
    BlocksNumbered();
    FilterFiveBlocks(PeopleItems, ActionItems, FoodItems, ObjectItems, FeelingItems, cat);
  }

  /** The pages have 6, 12, 7, 6 and 10 items and together cover the catalog. */
  lemma ByCategorySizes()
    ensures |ByCategory(People)| == 6 && |ByCategory(Action)| == 12 && |ByCategory(Food)| == 7
    ensures |ByCategory(Object)| == 6 && |ByCategory(Feeling)| == 10
    ensures |ByCategory(People)| + |ByCategory(Action)| + |ByCategory(Food)|
            + |ByCategory(Object)| + |ByCategory(Feeling)| == |Catalog|
  {
    ByCategoryIsBlock(People);
    ByCategoryIsBlock(Action);
    ByCategoryIsBlock(Food);
    ByCategoryIsBlock(Object);
    ByCategoryIsBlock(Feeling);
  }
}
