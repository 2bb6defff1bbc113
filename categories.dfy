/**
 * The category list of the todo component as a value: the list `addCategory`
 * builds, and the shape that list keeps (lower-case, non-blank, no repeats).
 */
module Categories {
  import opened Seqs
  import opened Text
  import opened Todos

  /** `addCategory` takes a name that is not blank and whose lower-case form is not listed yet. */
  predicate Accepts(categories: seq<string>, name: string)
    ensures Accepts(categories, name) ==> name != [] && Lower(name) !in categories
  {
    !IsBlank(name) && Lower(name) !in categories
  }

  /** `[...categories, newCategory.toLowerCase()]` when the guard lets the name through, else the list as it was. */
  function WithCategory(categories: seq<string>, name: string): (r: seq<string>)
    ensures |categories| <= |r| <= |categories| + 1 && r[..|categories|] == categories
    ensures |r| == |categories| + 1 <==> Accepts(categories, name)
    ensures !IsBlank(name) ==> Lower(name) in r
    ensures forall c :: c in r && c !in categories ==> c == Lower(name)
    ensures NoDuplicates(categories) ==> NoDuplicates(r)
  {
    if Accepts(categories, name) then categories + [Lower(name)] else categories
  }

  /** What every listed category looks like: lower-case, not blank, and listed once. */
  predicate WellFormed(categories: seq<string>) {
    NoDuplicates(categories) && forall c :: c in categories ==> IsLower(c) && !IsBlank(c)
  }

  /** The seeded list is well formed and holds the default category. */
  lemma SeedCategoriesWellFormed()
    ensures WellFormed(SeedCategories) && DefaultCategory in SeedCategories
  {
    SeedCategoriesAreWords();
    assert NoDuplicates(SeedCategories) by {
      SeedCategoriesDistinct();
    }
  }

  lemma SeedCategoriesAreWords()
    ensures forall c :: c in SeedCategories ==> IsLower(c) && !IsBlank(c)
  {
    var s := SeedCategories;
    forall i | 0 <= i < |s| ensures IsLower(s[i]) && !IsBlank(s[i]) {
      if i == 0 {
        LowerCaseWordIsWellFormed("work");
      } else if i == 1 {
        LowerCaseWordIsWellFormed("personal");
      } else if i == 2 {
        LowerCaseWordIsWellFormed("shopping");
      } else {
        LowerCaseWordIsWellFormed("health");
      }
    }
  }

  lemma SeedCategoriesDistinct()
    ensures NoDuplicates(SeedCategories)
  {
  }

  lemma LowerCaseWordIsWellFormed(c: string)
    requires c != [] && forall i :: 0 <= i < |c| ==> 'a' <= c[i] <= 'z'
    ensures IsLower(c) && !IsBlank(c)
  {
    BlankIffAllWhitespace(c);
    assert !IsWhitespace(c[0]);
  }

  /** Adding a category keeps the list well formed. */
  lemma AddCategoryKeepsWellFormed(categories: seq<string>, name: string)
    requires WellFormed(categories)
    ensures WellFormed(WithCategory(categories, name))
  {
    LowerFixesExactlyLowerCase(name);
    LowerKeepsBlank(name);
  }

  /** Adding a name a second time, in any letter case, changes nothing. */
  lemma AddCategoryIgnoresCase(categories: seq<string>, first: string, second: string)
    requires Lower(first) == Lower(second)
    ensures WithCategory(WithCategory(categories, first), second) == WithCategory(categories, first)
  {
    LowerKeepsBlank(first);
    LowerKeepsBlank(second);
  }

  /** In a well-formed list no two categories differ only in letter case. */
  lemma WellFormedIsCaseInsensitivelyUnique(categories: seq<string>)
    requires WellFormed(categories)
    ensures forall i, j :: 0 <= i < j < |categories| ==> Lower(categories[i]) != Lower(categories[j])
  {
    forall i, j | 0 <= i < j < |categories| ensures Lower(categories[i]) != Lower(categories[j]) {
      LowerFixesExactlyLowerCase(categories[i]);
      LowerFixesExactlyLowerCase(categories[j]);
    }
  }
}
