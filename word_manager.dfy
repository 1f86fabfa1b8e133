/** The word repository: the loaded categories, the current one, and random
    word selection with a fixed fallback word. */
module Words {
  import opened Base
  import opened Catalog

  /** The word returned whenever there is nothing to draw from. */
  const Fallback: string := "PALMEIRAS"

  /** The built-in category used when the word file is missing or cannot be decoded. */
  const DefaultCategory: WordCategory := WordCategory(
    "Futebol Brasileiro",
    "\U{26BD}\U{FE0F}",
    [ "PALMEIRAS", "FLAMENGO", "CORINTHIANS", "SAO PAULO",
      "SANTOS", "VASCO", "CRUZEIRO", "ATLETICO MINEIRO",
      "GREMIO", "INTERNACIONAL", "BOTAFOGO", "FLUMINENSE",
      "NEYMAR", "PELE", "ROMARIO", "RONALDO", "RIVALDO" ])

  /** `categories.first { $0.nome == name }`: the first category carrying exactly that name. */
  function FirstNamed(cats: seq<WordCategory>, name: string): (r: Option<WordCategory>)
    ensures r.None? <==> forall c :: c in cats ==> c.nome != name
    ensures r.Some? ==> exists i :: 0 <= i < |cats| && cats[i] == r.value && r.value.nome == name &&
                                    forall j :: 0 <= j < i ==> cats[j].nome != name
  {
    if cats == [] then None
    else if cats[0].nome == name then Some(cats[0])
    else
      var r := FirstNamed(cats[1..], name);
      assert forall c :: c in cats[1..] ==> c in cats;
      assert r.Some? ==> exists i :: 0 <= i < |cats| - 1 && cats[1..][i] == r.value && r.value.nome == name &&
                                     forall j :: 0 <= j < i ==> cats[1..][j].nome != name;
      r
  }

  /** The words a draw from `cur` may produce: any word of the current category,
      or the fallback word when no category is set or its list is empty. */
  predicate CanDraw(cur: Option<WordCategory>, w: string) {
    if cur.Some? && cur.value.palavras != [] then w in cur.value.palavras else w == Fallback
  }

  /** Every word of every category, in order: an independent reading of the word count. */
  function AllWords(cats: seq<WordCategory>): seq<string> {
    if cats == [] then [] else cats[0].palavras + AllWords(cats[1..])
  }

  /** Flattening a list with one more category at the end appends that category's words. */
  lemma {:induction false} AllWordsSnoc(cats: seq<WordCategory>, c: WordCategory)
    ensures AllWords(cats + [c]) == AllWords(cats) + c.palavras
  {
    if cats == [] {
      assert [c][1..] == [];
    } else {
      assert (cats + [c])[1..] == cats[1..] + [c];
      AllWordsSnoc(cats[1..], c);
    }
  }

  /** `categories.reduce(0) { $0 + $1.palavras.count }`, a left fold: it counts exactly
      the words of the flattened list. */
  function TotalWords(cats: seq<WordCategory>): (n: nat)
    ensures n == |AllWords(cats)|
  {
    if cats == [] then 0
    else
      var init, last := cats[..|cats| - 1], cats[|cats| - 1];
      assert cats == init + [last];
      AllWordsSnoc(init, last);
      TotalWords(init) + |last.palavras|
  }

  lemma {:induction false} TotalWordsAppend(a: seq<WordCategory>, b: seq<WordCategory>)
    ensures TotalWords(a + b) == TotalWords(a) + TotalWords(b)
    decreases |b|
  {
    if b == [] {
      assert a + b == a;
    } else {
      var b' := b[..|b| - 1];
      assert (a + b)[..|a + b| - 1] == a + b';
      TotalWordsAppend(a, b');
    }
  }

  /** No category holds more words than the total. */
  lemma CategoryWithinTotal(cats: seq<WordCategory>, i: nat)
    requires i < |cats|
    ensures |cats[i].palavras| <= TotalWords(cats)
  {
    assert cats == cats[..i] + [cats[i]] + cats[i + 1..];
    TotalWordsAppend(cats[..i] + [cats[i]], cats[i + 1..]);
    TotalWordsAppend(cats[..i], [cats[i]]);
    assert [cats[i]][..0] == [];
  }

  /** The built-in category: its name, its 17 words, none empty, the fallback word among them. */
  lemma DefaultCategoryShape()
    ensures DefaultCategory.nome == "Futebol Brasileiro"
    ensures |DefaultCategory.palavras| == 17 && TotalWords([DefaultCategory]) == 17
    ensures Fallback in DefaultCategory.palavras
    ensures forall w :: w in DefaultCategory.palavras ==> w != ""
  {
    assert [DefaultCategory][..0] == [];
    assert DefaultCategory.palavras[0] == Fallback;
  }

  /** The repository. The process-wide `shared` instance is an ordinary object here. */
  class WordManager {
    var categories: seq<WordCategory>
    var currentCategory: Option<WordCategory>

    /** A selected category is always one of the loaded ones, and some category is
        selected whenever any is loaded. */
    predicate Valid()
      reads this
    {
      (currentCategory.Some? ==> currentCategory.value in categories) &&
      (categories != [] ==> currentCategory.Some?)
    }

    /** The initialiser loads the words at once. `source` is the decoded word
        file, `None` when the file is missing or does not decode. */
    constructor (source: Option<seq<WordCategory>>)
      ensures Valid()
      ensures categories == (if source.Some? then source.value else [DefaultCategory])
      ensures currentCategory == (if source.Some? then First(source.value) else Some(DefaultCategory))
    {
      categories := [];
      currentCategory := None;
      new;
      LoadWords(source);
    }

    /** A decoded list replaces the categories and selects its first one (none for an empty
        list); a missing or undecodable file falls back to the built-in category. */
    method LoadWords(source: Option<seq<WordCategory>>)
      modifies this
      ensures Valid()
      ensures categories == (if source.Some? then source.value else [DefaultCategory])
      ensures currentCategory == (if source.Some? then First(source.value) else Some(DefaultCategory))
    {
      match source {
        case None =>
          LoadDefaultWords();
        case Some(decoded) =>
          categories := decoded;
          currentCategory := First(categories);
      }
    }

    method LoadDefaultWords()
      modifies this
      ensures Valid()
      ensures categories == [DefaultCategory] && currentCategory == Some(DefaultCategory)
    {
      categories := [DefaultCategory];
      currentCategory := Some(DefaultCategory);
    }

    /** A word of the current category, or the fallback word. */
    method GetRandomWord() returns (w: string)
      ensures CanDraw(currentCategory, w)
    {
      if currentCategory.None? || currentCategory.value.palavras == [] {
        return Fallback;
      }
      var pick := RandomElement(currentCategory.value.palavras);
      w := pick.GetOr(Fallback);
    }

    /** A word of the first category named `categoryName`; when there is none, or its
        list is empty, whatever `GetRandomWord` would give. */
    method GetRandomWordFrom(categoryName: string) returns (w: string)
      ensures var found := FirstNamed(categories, categoryName);
              if found.Some? && found.value.palavras != [] then w in found.value.palavras
              else CanDraw(currentCategory, w)
    {
      var category := FirstNamed(categories, categoryName);
      var pick := None;
      if category.Some? {
        pick := RandomElement(category.value.palavras);
      }
      if pick.Some? {
        w := pick.value;
      } else {
        w := GetRandomWord();
      }
    }

    method GetAllCategories() returns (cats: seq<WordCategory>)
      ensures cats == categories
    {
      cats := categories;
    }

    method GetCurrentCategory() returns (cur: Option<WordCategory>)
      ensures cur == currentCategory
    {
      cur := currentCategory;
    }

    /** Selects the first category named exactly `categoryName`; without a match the
        selection stays as it was. */
    method SetCurrentCategory(categoryName: string)
      modifies this
      ensures categories == old(categories)
      ensures currentCategory == (match FirstNamed(categories, categoryName)
                                  case Some(c) => Some(c)
                                  case None => old(currentCategory))
      ensures old(Valid()) ==> Valid()
    {
      var category := FirstNamed(categories, categoryName);
      if category.Some? {
        currentCategory := category;
      }
    }

    /** Selects some category, or none when there are no categories. */
    method SetRandomCategory()
      modifies this
      ensures categories == old(categories)
      ensures currentCategory.None? <==> categories == []
      ensures currentCategory.Some? ==> currentCategory.value in categories
      ensures Valid()
    {
      currentCategory := RandomElement(categories);
    }

    /** The number of words over all categories. */
    method GetTotalWordsCount() returns (n: int)
      ensures n == |AllWords(categories)|
    {
      n := TotalWords(categories);
    }
  }
}
