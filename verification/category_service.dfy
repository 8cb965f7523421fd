/** Category slugs and the category store of src/services/categoryService.js. `slugify` is
    written out identically in scripts/backfillCategories.js, which uses this definition. */
module CategoryService {
  import opened Wrappers
  import opened JsString

  /** `[a-z0-9]`: the characters a slug keeps. */
  predicate IsSlugChar(c: char) { IsLowerLetter(c) || IsDigit(c) }

  /** Only slug characters and single dashes between them. */
  predicate SingleDashes(s: string) {
    && (forall i :: 0 <= i < |s| ==> IsSlugChar(s[i]) || s[i] == '-')
    && (forall i :: 0 <= i < |s| - 1 ==> s[i] == '-' ==> s[i + 1] != '-')
  }

  /** What `slugify` produces: slug characters and single dashes, with no dash at either
      end. */
  predicate IsSlug(s: string) {
    SingleDashes(s) && (s == [] || (s[0] != '-' && s[|s| - 1] != '-'))
  }

  /** `.replace(/[^a-z0-9]+/g, "-")`: every maximal run of other characters becomes one dash. */
  function Collapse(s: string): (r: string)
    ensures SingleDashes(r)
    ensures s == [] <==> r == []
    ensures s != [] && IsSlugChar(s[0]) ==> r[0] == s[0]
    ensures s != [] && !IsSlugChar(s[0]) ==> r[0] == '-'
    decreases |s|
  {
    if s == [] then []
    else if IsSlugChar(s[0]) then
      var rest := Collapse(s[1..]);
      [s[0]] + rest
    else
      var n := CountWhile(s, c => !IsSlugChar(c));
      "-" + Collapse(s[n..])
  }

  function LeadingDashes(s: string): (n: nat)
    ensures n <= |s| && (forall i :: 0 <= i < n ==> s[i] == '-') && (n < |s| ==> s[n] != '-')
  {
    CountWhile(s, c => c == '-')
  }

  /** The number of dashes that end `s[..j]`. */
  function DashesBefore(s: string, j: nat): (n: nat)
    requires j <= |s|
    ensures n <= j && (forall i :: j - n <= i < j ==> s[i] == '-')
    ensures n < j ==> s[j - n - 1] != '-'
  {
    if j == 0 || s[j - 1] != '-' then 0 else 1 + DashesBefore(s, j - 1)
  }

  /** `.replace(/^-+|-+$/g, "")`: the dashes at either end go. */
  function StripDashes(s: string): (r: string)
    ensures |r| <= |s|
    ensures r == [] || (r[0] != '-' && r[|r| - 1] != '-')
  {
    var a := LeadingDashes(s);
    var e := |s| - DashesBefore(s, |s|);
    if e <= a then [] else s[a..e]
  }

  /** What is left is one piece of the input, and everything cut away on either side of it is
      a dash. */
  lemma StripDashesSlice(s: string)
    ensures exists a, b :: 0 <= a <= b <= |s| && StripDashes(s) == s[a..b]
                           && (forall i :: 0 <= i < a ==> s[i] == '-')
                           && (forall i :: b <= i < |s| ==> s[i] == '-')
  {
    var a := LeadingDashes(s);
    var e := |s| - DashesBefore(s, |s|);
    if e <= a {
      assert StripDashes(s) == s[a..a];
    } else {
      assert StripDashes(s) == s[a..e];
    }
  }

  /** Only dashes go. */
  lemma StripDashesKeeps(s: string)
    ensures forall i :: 0 <= i < |s| && s[i] != '-' ==> s[i] in StripDashes(s)
  {
    var a := LeadingDashes(s);
    var e := |s| - DashesBefore(s, |s|);
    forall i | 0 <= i < |s| && s[i] != '-' ensures s[i] in StripDashes(s) {
      assert a <= i < e;
      assert s[i] == s[a..e][i - a];
    }
  }

  /** A slice of slug characters and single dashes is made of them too. */
  lemma SingleDashesSlice(s: string, a: nat, b: nat)
    requires SingleDashes(s) && a <= b <= |s|
    ensures SingleDashes(s[a..b])
  {
    var t := s[a..b];
    assert forall i :: 0 <= i < |t| ==> t[i] == s[a + i];
  }

  /** Stripping the end dashes of slug characters and single dashes leaves a slug. */
  lemma StripSingleDashes(s: string)
    requires SingleDashes(s)
    ensures IsSlug(StripDashes(s))
  {
    var a := LeadingDashes(s);
    var e := |s| - DashesBefore(s, |s|);
    if a < e {
      SingleDashesSlice(s, a, e);
    }
  }

  /** `slugify` */
  function Slugify(value: string): (r: string)
    ensures IsSlug(r)
  {
    var collapsed := Collapse(Trim(Lower(value)));
    StripSingleDashes(collapsed);
    StripDashes(collapsed)
  }

  /** A run of slug characters and single dashes collapses to itself. */
  lemma {:induction false} CollapseSingleDashes(s: string)
    requires SingleDashes(s)
    ensures Collapse(s) == s
    decreases |s|
  {
    if s != [] {
      assert SingleDashes(s[1..]);
      if IsSlugChar(s[0]) {
        CollapseSingleDashes(s[1..]);
      } else {
        assert CountWhile(s, c => !IsSlugChar(c)) == 1;
        CollapseSingleDashes(s[1..]);
      }
    }
  }

  /** A slug is its own slug, so `slugify` is idempotent. */
  lemma SlugifySlug(s: string)
    requires IsSlug(s)
    ensures Slugify(s) == s
  {
    LowerKeeps(s);
    assert IsTrimmed(s);
    TrimTrimmed(s);
    CollapseSingleDashes(s);
    StripSlug(s);
  }

  lemma StripSlug(s: string)
    requires IsSlug(s)
    ensures StripDashes(s) == s
  {
    assert LeadingDashes(s) == 0;
    assert DashesBefore(s, |s|) == 0;
    assert s[0..|s|] == s;
  }

  lemma SlugifyIdempotent(s: string)
    ensures Slugify(Slugify(s)) == Slugify(s)
  {
    SlugifySlug(Slugify(s));
  }

  predicate AnySlugChar(s: string) { exists i :: 0 <= i < |s| && IsSlugChar(s[i]) }

  lemma {:induction false} CollapseSlugChars(s: string)
    ensures AnySlugChar(Collapse(s)) <==> AnySlugChar(s)
    decreases |s|
  {
    if s != [] && !IsSlugChar(s[0]) {
      var n := CountWhile(s, c => !IsSlugChar(c));
      CollapseSlugChars(s[n..]);
      SkipNoSlugChars(s, n);
      DashSlugChars(Collapse(s[n..]));
    } else if s != [] {
      assert IsSlugChar(Collapse(s)[0]);
    }
  }

  /** Dropping a prefix without slug characters keeps whether there are any. */
  lemma SkipNoSlugChars(s: string, n: nat)
    requires n <= |s| && forall i :: 0 <= i < n ==> !IsSlugChar(s[i])
    ensures AnySlugChar(s[n..]) <==> AnySlugChar(s)
  {
    if AnySlugChar(s) {
      var i :| 0 <= i < |s| && IsSlugChar(s[i]);
      assert s[n..][i - n] == s[i];
    }
    if AnySlugChar(s[n..]) {
      var i :| 0 <= i < |s[n..]| && IsSlugChar(s[n..][i]);
      assert s[i + n] == s[n..][i];
    }
  }

  /** A leading dash adds no slug character. */
  lemma DashSlugChars(t: string)
    ensures AnySlugChar("-" + t) <==> AnySlugChar(t)
  {
    if AnySlugChar(t) {
      var i :| 0 <= i < |t| && IsSlugChar(t[i]);
      assert ("-" + t)[i + 1] == t[i];
    }
    if AnySlugChar("-" + t) {
      var i :| 0 <= i < |"-" + t| && IsSlugChar(("-" + t)[i]);
      assert t[i - 1] == ("-" + t)[i];
    }
  }

  lemma StripEmpty(s: string)
    requires SingleDashes(s)
    ensures StripDashes(s) == [] <==> !AnySlugChar(s)
  {
    if AnySlugChar(s) {
      var i :| 0 <= i < |s| && IsSlugChar(s[i]);
      StripDashesKeeps(s);
      assert s[i] in StripDashes(s);
    }
    var a := LeadingDashes(s);
    if StripDashes(s) != [] {
      assert s[a] == StripDashes(s)[0];
    }
  }

  lemma SlugCharNotSpace(c: char)
    requires IsSlugChar(c)
    ensures !IsSpace(c)
  {
  }

  lemma PaddedSlugChars(s: string, lo: nat, t: string)
    requires lo + |t| <= |s| && s[lo..lo + |t|] == t
    requires AllSpace(s[..lo]) && AllSpace(s[lo + |t|..])
    ensures AnySlugChar(t) <==> AnySlugChar(s)
  {
    if AnySlugChar(s) {
      var i :| 0 <= i < |s| && IsSlugChar(s[i]);
      SlugCharNotSpace(s[i]);
      assert forall k :: 0 <= k < lo ==> s[..lo][k] == s[k];
      assert forall k :: lo + |t| <= k < |s| ==> s[lo + |t|..][k - lo - |t|] == s[k];
      assert lo <= i < lo + |t|;
      assert t[i - lo] == s[i];
    }
    if AnySlugChar(t) {
      var i :| 0 <= i < |t| && IsSlugChar(t[i]);
      assert s[lo + i] == t[i];
    }
  }

  lemma TrimSlugChars(s: string)
    ensures AnySlugChar(Trim(s)) <==> AnySlugChar(s)
  {
    TrimPieces(s);
    PaddedSlugChars(s, |s| - |TrimStart(s)|, Trim(s));
  }

  /** The slug is empty exactly when the value holds no ASCII letter or digit, as "!!!"
      does. */
  lemma SlugifyEmptyIff(value: string)
    ensures Slugify(value) == [] <==> !AnySlugChar(Lower(value))
  {
    TrimSlugChars(Lower(value));
    CollapseSlugChars(Trim(Lower(value)));
    StripEmpty(Collapse(Trim(Lower(value))));
  }

  /** `createCategory` trims before slugifying, which changes nothing: `slugify` trims
      itself. */
  lemma SlugifyTrim(name: string)
    ensures Slugify(Trim(name)) == Slugify(name)
  {
    LowerTrim(name);
    TrimIdempotent(Lower(name));
  }

  const DefaultCategories: seq<string> :=
    ["food", "transport", "utilities", "entertainment", "shopping", "health", "rent", "other"]

  const EmptyNameMessage: string := "Category name cannot be empty."
  const InvalidNameMessage: string := "Category name is invalid."

  /** Every default name is already a slug, so it is its own slug. */
  datatype Category = Category(name: string, slug: string, isDefault: bool)

  /** Every row is filed under its own slug, and slugs are non-empty slugs. */
  predicate Filed(m: map<string, Category>) {
    forall slug :: slug in m ==> m[slug].slug == slug && slug != [] && IsSlug(slug)
  }

  lemma FiledInsert(m: map<string, Category>, c: Category)
    requires Filed(m) && c.slug != [] && IsSlug(c.slug)
    ensures Filed(m[c.slug := c])
  {
  }

  /** The `Category` table, looked up by its unique slug. */
  class CategoryStore {
    var categories: map<string, Category>

    ghost predicate Valid()
      reads this
    {
      Filed(categories)
    }

    constructor()
      ensures Valid() && categories == map[]
    {
      categories := map[];
    }

    /** `createCategory`: an existing row with the same slug is returned untouched; otherwise a
        non-default row named by the trimmed name is created. */
    method CreateCategory(name: string) returns (r: Result<Category>)
      requires Valid()
      modifies this
      ensures Valid()
      ensures Trim(name) == [] ==> r == Err(EmptyNameMessage)
      ensures Trim(name) != [] && Slugify(name) == [] ==> r == Err(InvalidNameMessage)
      ensures r.Err? ==> categories == old(categories)
      ensures Trim(name) != [] && Slugify(name) in old(categories) ==>
                r == Ok(old(categories)[Slugify(name)]) && categories == old(categories)
      ensures Trim(name) != [] && Slugify(name) != [] && Slugify(name) !in old(categories) ==>
                r == Ok(Category(Trim(name), Slugify(name), false))
                && categories == old(categories)[Slugify(name) := r.value]
    {
      var normalized := Trim(name);
      if normalized == [] {
        return Err(EmptyNameMessage);
      }
      SlugifyTrim(name);
      var slug := Slugify(normalized);
      if slug == [] {
        return Err(InvalidNameMessage);
      }
      if slug in categories {
        return Ok(categories[slug]);
      }
      var created := Category(normalized, slug, false);
      FiledInsert(categories, created);
      categories := categories[slug := created];
      return Ok(created);
    }

    /** `resolveOrCreateCategory` */
    method ResolveOrCreateCategory(name: string) returns (r: Result<Category>)
      requires Valid()
      modifies this
      ensures Valid()
      ensures r.Ok? <==> Slugify(name) != [] && Trim(name) != []
      ensures r.Ok? ==> Slugify(name) in categories && r.value == categories[Slugify(name)]
      ensures r.Ok? ==> categories.Keys == old(categories).Keys + {Slugify(name)}
      ensures forall slug :: slug in old(categories) ==> slug in categories && categories[slug] == old(categories)[slug]
      ensures Trim(name) == [] ==> r == Err(EmptyNameMessage)
      ensures Trim(name) != [] && Slugify(name) == [] ==> r == Err(InvalidNameMessage)
      ensures r.Err? ==> categories == old(categories)
      ensures Trim(name) != [] && Slugify(name) in old(categories) ==>
                r == Ok(old(categories)[Slugify(name)]) && categories == old(categories)
      ensures Trim(name) != [] && Slugify(name) != [] && Slugify(name) !in old(categories) ==>
                r == Ok(Category(Trim(name), Slugify(name), false))
                && categories == old(categories)[Slugify(name) := r.value]
    {
      r := CreateCategory(name);
    }

    /** One `upsert` of `ensureDefaultCategories`, for a name that is its own slug. */
    method UpsertDefault(name: string)
      requires Valid() && name != [] && IsSlug(name)
      modifies this
      ensures Valid()
      ensures categories == old(categories)[name := if name in old(categories)
                                                     then old(categories)[name].(isDefault := true)
                                                     else Category(name, name, true)]
    {
      SlugifySlug(name);
      var slug := Slugify(name);
      var row := if slug in categories then categories[slug].(isDefault := true) else Category(name, slug, true);
      FiledInsert(categories, row);
      categories := categories[slug := row];
    }

    /** The loop of `ensureDefaultCategories` over names that are their own slugs. */
    method UpsertDefaults(names: seq<string>)
      requires Valid()
      requires forall i :: 0 <= i < |names| ==> names[i] != [] && IsSlug(names[i])
      modifies this
      ensures Valid()
      ensures categories.Keys == old(categories).Keys + set d | d in names
      ensures forall d :: d in names ==> categories[d].isDefault
      ensures forall slug :: slug in old(categories) ==>
                categories[slug] == old(categories)[slug].(isDefault := old(categories)[slug].isDefault || slug in names)
      ensures forall slug :: slug in categories && slug !in old(categories) ==> categories[slug] == Category(slug, slug, true)
    {
      for i := 0 to |names|
        invariant Valid()
        invariant categories.Keys == old(categories).Keys + set d | d in names[..i]
        invariant forall d :: d in names[..i] ==> categories[d].isDefault
        invariant forall slug :: slug in old(categories) ==>
                    categories[slug] == old(categories)[slug].(isDefault := old(categories)[slug].isDefault || slug in names[..i])
        invariant forall slug :: slug in categories && slug !in old(categories) ==> categories[slug] == Category(slug, slug, true)
      {
        assert names[..i + 1] == names[..i] + [names[i]];
        UpsertDefault(names[i]);
      }
      assert names[..|names|] == names;
    }

    /** `ensureDefaultCategories`: every default slug ends up present and marked default; rows
        already present change only their `isDefault` flag. */
    method EnsureDefaultCategories()
      requires Valid()
      modifies this
      ensures Valid()
      ensures categories.Keys == old(categories).Keys + set d | d in DefaultCategories
      ensures forall d :: d in DefaultCategories ==> categories[d].isDefault
      ensures forall slug :: slug in old(categories) ==>
                categories[slug] == old(categories)[slug].(isDefault := old(categories)[slug].isDefault || slug in DefaultCategories)
      ensures forall slug :: slug in categories && slug !in old(categories) ==> categories[slug] == Category(slug, slug, true)
    {
      assert forall i :: 0 <= i < |DefaultCategories| ==> DefaultCategories[i] != [] && IsSlug(DefaultCategories[i]);
      UpsertDefaults(DefaultCategories);
    }
  }
}
