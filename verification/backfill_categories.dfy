/** The category naming logic of scripts/backfillCategories.js: name normalisation, SQL
    quoting, unique slug allocation, and the selection of legacy names to insert. Query results
    are parameters and executed INSERT statements are results. */
module BackfillCategories {
  import opened Wrappers
  import opened JsString
  import opened CategoryService

  /** `normalize`: trimmed, then lower-cased. */
  function Normalize(value: string): (r: string)
    ensures IsTrimmed(r) && |r| <= |value|
    ensures forall i :: 0 <= i < |r| ==> !IsUpperLetter(r[i])
  {
    LowerHasNoUpper(Trim(value));
    LowerTrim(value);
    Lower(Trim(value))
  }

  /** Lower-casing and trimming commute, so the order `normalize` picks does not matter. */
  lemma NormalizeIsTrimLower(value: string)
    ensures Normalize(value) == Trim(Lower(value))
  {
    LowerTrim(value);
  }

  lemma NormalizeIdempotent(value: string)
    ensures Normalize(Normalize(value)) == Normalize(value)
  {
    var n := Normalize(value);
    TrimTrimmed(n);
    LowerKeeps(n);
  }

  /** Names with the same normalised form get the same slug. */
  lemma SlugifyNormalize(value: string)
    ensures Slugify(Normalize(value)) == Slugify(value)
  {
    NormalizeIsTrimLower(value);
    var t := Trim(Lower(value));
    LowerIdempotent(value);
    LowerTrim(Lower(value));
    TrimIdempotent(Lower(value));
    assert Trim(Lower(t)) == t;
  }

  /** `quote`: every `'` is doubled. */
  function Quote(value: string): (r: string)
    ensures |r| >= |value|
    ensures WellQuoted(r)
  {
    if value == [] then []
    else if value[0] == '\'' then "''" + Quote(value[1..])
    else [value[0]] + Quote(value[1..])
  }

  /** Every quote is one half of a doubled pair. */
  predicate WellQuoted(s: string)
    decreases |s|
  {
    if s == [] then true
    else if s[0] != '\'' then WellQuoted(s[1..])
    else |s| >= 2 && s[1] == '\'' && WellQuoted(s[2..])
  }

  /** Replacing each `''` by `'`, left to right. */
  function Unquote(s: string): (r: string)
    ensures |r| <= |s|
  {
    if s == [] then []
    else if |s| >= 2 && s[0] == '\'' && s[1] == '\'' then "'" + Unquote(s[2..])
    else [s[0]] + Unquote(s[1..])
  }

  lemma {:induction false} UnquoteQuote(value: string)
    ensures Unquote(Quote(value)) == value
  {
    if value != [] {
      UnquoteQuote(value[1..]);
      if value[0] == '\'' {
        assert ("''" + Quote(value[1..]))[2..] == Quote(value[1..]);
      } else {
        assert ([value[0]] + Quote(value[1..]))[1..] == Quote(value[1..]);
      }
    }
  }

  lemma {:induction false} QuoteUnquote(s: string)
    requires WellQuoted(s)
    ensures Quote(Unquote(s)) == s
    decreases |s|
  {
    if s != [] {
      if s[0] == '\'' {
        QuoteUnquote(s[2..]);
        assert ("'" + Unquote(s[2..]))[1..] == Unquote(s[2..]);
      } else {
        QuoteUnquote(s[1..]);
        assert ([s[0]] + Unquote(s[1..]))[1..] == Unquote(s[1..]);
      }
    }
  }

  /** How SQL reads the body of a string literal that follows an opening quote: a doubled quote
      stands for one quote and a single quote closes the literal. The result is the literal's
      value and the text after it. */
  function ReadLiteral(s: string): Option<(string, string)>
    decreases |s|
  {
    if s == [] then None
    else if s[0] == '\'' then
      if |s| >= 2 && s[1] == '\'' then
        match ReadLiteral(s[2..])
        case None => None
        case Some(p) => Some(("'" + p.0, p.1))
      else Some(([], s[1..]))
    else
      match ReadLiteral(s[1..])
      case None => None
      case Some(p) => Some(([s[0]] + p.0, p.1))
  }

  /** A quoted value spliced between quotes reads back as exactly that value, whatever it holds,
      and the statement text after the closing quote is left to the parser untouched. */
  lemma {:induction false} ReadQuoted(value: string, rest: string)
    requires rest == [] || rest[0] != '\''
    ensures ReadLiteral(Quote(value) + "'" + rest) == Some((value, rest))
  {
    var s := Quote(value) + "'" + rest;
    if value == [] {
      assert s == ['\''] + rest;
    } else {
      var after := Quote(value[1..]) + "'" + rest;
      ReadQuoted(value[1..], rest);
      if value[0] == '\'' {
        assert s == "''" + after;
        assert ReadLiteral(s) == Some(("'" + value[1..], rest));
        assert "'" + value[1..] == value;
      } else {
        assert s == [value[0]] + after;
        assert ReadLiteral(s) == Some(([value[0]] + value[1..], rest));
        assert [value[0]] + value[1..] == value;
      }
    }
  }

  /** The name slugs are numbered from: the slug itself, or "category" when it is empty. */
  function SlugRoot(base: string): (r: string)
    ensures r != []
    ensures base != [] ==> r == base
  {
    if base == [] then "category" else base
  }

  /** The k-th name `uniqueSlug` tries: the root first, then `root-1`, `root-2`, ... */
  function Candidate(root: string, k: nat): (r: string)
    ensures k == 0 ==> r == root
  {
    if k == 0 then root else root + "-" + NatToString(k)
  }

  lemma CandidateInjective(root: string, j: nat, k: nat)
    requires Candidate(root, j) == Candidate(root, k)
    ensures j == k
  {
    if j == 0 || k == 0 {
      assert |Candidate(root, j)| == |root| + (if j == 0 then 0 else 1 + |NatToString(j)|);
      assert |Candidate(root, k)| == |root| + (if k == 0 then 0 else 1 + |NatToString(k)|);
    } else {
      assert Candidate(root, j)[|root| + 1..] == NatToString(j);
      assert Candidate(root, k)[|root| + 1..] == NatToString(k);
      NatToStringInjective(j, k);
    }
  }

  /** The first `n` candidates are all in use. */
  predicate Taken(root: string, n: nat, used: set<string>) {
    forall j: nat :: j < n ==> Candidate(root, j) in used
  }

  lemma TakenStep(root: string, n: nat, used: set<string>)
    requires Taken(root, n, used) && Candidate(root, n) in used
    ensures Taken(root, n + 1, used)
  {
  }

  /** `uniqueSlug`: the first candidate not yet used, which is then marked used. The slugs
      already used form a finite set and every failed try is a different member of it, so the
      search ends. */
  method UniqueSlug(base: string, usedSlugs: set<string>) returns (slug: string, usedAfter: set<string>)
    ensures slug !in usedSlugs
    ensures usedAfter == usedSlugs + {slug}
    ensures exists k: nat :: slug == Candidate(SlugRoot(base), k) && Taken(SlugRoot(base), k, usedSlugs)
  {
    var root := SlugRoot(base);
    var candidate := root;
    var idx := 1;
    ghost var tried: set<string> := {};
    while candidate in usedSlugs
      invariant idx >= 1 && candidate == Candidate(root, idx - 1)
      invariant Taken(root, idx - 1, usedSlugs)
      invariant tried <= usedSlugs
      invariant forall t :: t in tried ==> exists j: nat :: j < idx - 1 && t == Candidate(root, j)
      invariant candidate !in tried
      decreases |usedSlugs - tried|
    {
      TakenStep(root, idx - 1, usedSlugs);
      tried := tried + {candidate};
      candidate := Candidate(root, idx);
      idx := idx + 1;
      forall t | t in tried
        ensures t != candidate
      {
        var j: nat :| j < idx - 1 && t == Candidate(root, j);
        if t == candidate {
          CandidateInjective(root, j, idx - 1);
        }
      }
    }
    slug := candidate;
    usedAfter := usedSlugs + {candidate};
  }

  /** A row of `SELECT "id", "name", "slug" FROM "Category"`. */
  datatype CategoryRow = CategoryRow(id: int, name: string, slug: string)

  /** The key `loadExistingCategoryMap` files a row under. */
  function Key(row: CategoryRow): string {
    Normalize(row.name)
  }

  /** The (key, id) pairs of the rows, in order. */
  function Entries(rows: seq<CategoryRow>): (r: seq<(string, int)>)
    ensures |r| == |rows|
  {
    if rows == [] then [] else Entries(rows[..|rows| - 1]) + [(Key(rows[|rows| - 1]), rows[|rows| - 1].id)]
  }

  lemma {:induction false} EntriesAt(rows: seq<CategoryRow>, i: nat)
    requires i < |rows|
    ensures Entries(rows)[i] == (Key(rows[i]), rows[i].id)
  {
    if i < |rows| - 1 {
      var init := rows[..|rows| - 1];
      EntriesAt(init, i);
      assert init[i] == rows[i];
    }
  }

  /** A `Map` filled by `set` in order: a later entry overwrites an earlier one with the same
      key. */
  function Index(entries: seq<(string, int)>): map<string, int>
  {
    if entries == [] then map[]
    else Index(entries[..|entries| - 1])[entries[|entries| - 1].0 := entries[|entries| - 1].1]
  }

  lemma IndexStep(entries: seq<(string, int)>, i: nat)
    requires i < |entries|
    ensures Index(entries[..i + 1]) == Index(entries[..i])[entries[i].0 := entries[i].1]
  {
    assert entries[..i + 1][..i] == entries[..i];
  }

  /** `byName` after the loop of `loadExistingCategoryMap`. */
  function NameIndex(rows: seq<CategoryRow>): map<string, int> {
    Index(Entries(rows))
  }

  /** The keys filed are exactly the keys of the entries. */
  lemma {:induction false} IndexKeys(entries: seq<(string, int)>)
    ensures forall k :: k in Index(entries) <==> exists i :: 0 <= i < |entries| && entries[i].0 == k
  {
    if entries != [] {
      var init := entries[..|entries| - 1];
      IndexKeys(init);
      assert forall i :: 0 <= i < |init| ==> init[i] == entries[i];
    }
  }

  /** The id filed under a key is that of the last entry with that key. */
  lemma {:induction false} IndexLast(entries: seq<(string, int)>, i: nat)
    requires i < |entries|
    requires forall j :: i < j < |entries| ==> entries[j].0 != entries[i].0
    ensures entries[i].0 in Index(entries) && Index(entries)[entries[i].0] == entries[i].1
  {
    if i < |entries| - 1 {
      var init := entries[..|entries| - 1];
      assert init[i] == entries[i];
      assert forall j :: i < j < |init| ==> init[j] == entries[j];
      IndexLast(init, i);
    }
  }

  /** Every row's normalised name is filed, under the id of the last row with that normalised
      name; nothing else is. */
  lemma NameIndexLast(rows: seq<CategoryRow>, i: nat)
    requires i < |rows|
    requires forall j :: i < j < |rows| ==> Key(rows[j]) != Key(rows[i])
    ensures Key(rows[i]) in NameIndex(rows) && NameIndex(rows)[Key(rows[i])] == rows[i].id
    ensures forall k :: k in NameIndex(rows) ==> exists j :: 0 <= j < |rows| && Key(rows[j]) == k
  {
    var entries := Entries(rows);
    forall j | 0 <= j < |rows|
      ensures entries[j] == (Key(rows[j]), rows[j].id)
    {
      EntriesAt(rows, j);
    }
    IndexLast(entries, i);
    IndexKeys(entries);
  }

  /** `usedSlugs` after the loop of `loadExistingCategoryMap`: the slug of every row. */
  function SlugsOf(rows: seq<CategoryRow>): (r: set<string>)
    ensures forall i :: 0 <= i < |rows| ==> rows[i].slug in r
    ensures forall x :: x in r ==> exists i :: 0 <= i < |rows| && rows[i].slug == x
  {
    if rows == [] then {}
    else
      var init := rows[..|rows| - 1];
      assert forall i :: 0 <= i < |init| ==> init[i] == rows[i];
      SlugsOf(init) + {rows[|rows| - 1].slug}
  }

  lemma SlugsOfStep(rows: seq<CategoryRow>, i: nat)
    requires i < |rows|
    ensures SlugsOf(rows[..i + 1]) == SlugsOf(rows[..i]) + {rows[i].slug}
  {
    assert rows[..i + 1][..i] == rows[..i];
  }

  /** `loadExistingCategoryMap` over the rows its query returns. */
  method LoadExistingCategoryMap(rows: seq<CategoryRow>) returns (byName: map<string, int>, usedSlugs: set<string>)
    ensures byName == NameIndex(rows)
    ensures usedSlugs == SlugsOf(rows)
  {
    var entries := Entries(rows);
    byName := map[];
    usedSlugs := {};
    for i := 0 to |rows|
      invariant byName == Index(entries[..i])
      invariant usedSlugs == SlugsOf(rows[..i])
    {
      IndexStep(entries, i);
      EntriesAt(rows, i);
      SlugsOfStep(rows, i);
      // entries[i] is (normalize(row.name), row.id)
      byName := byName[entries[i].0 := entries[i].1];
      usedSlugs := usedSlugs + {rows[i].slug};
    }
    assert entries[..|rows|] == entries;
    assert rows[..|rows|] == rows;
  }

  predicate Distinct(s: seq<string>) {
    forall i, j :: 0 <= i < j < |s| ==> s[i] != s[j]
  }

  /** `names.add`: appended unless already present, as a JavaScript `Set` keeps insertion
      order. */
  function AddName(names: seq<string>, x: string): (r: seq<string>)
    ensures Distinct(names) ==> Distinct(r)
    ensures x in r && forall y :: y in r <==> y in names || y == x
    ensures |r| >= |names| && r[..|names|] == names
  {
    if x in names then names else names + [x]
  }

  /** A legacy column value the loop of `collectLegacyCategoryNames` keeps: present and
      non-empty. */
  predicate Kept(category: Option<string>) {
    category.Some? && category.value != []
  }

  /** The trimmed values of the kept rows, in order. */
  function KeptNames(rows: seq<Option<string>>): (r: seq<string>)
    ensures |r| <= |rows|
  {
    if rows == [] then []
    else
      var prev := KeptNames(rows[..|rows| - 1]);
      var last := rows[|rows| - 1];
      if Kept(last) then prev + [Trim(last.value)] else prev
  }

  /** Every kept row contributes its trimmed value, and nothing else is contributed. */
  lemma {:induction false} KeptNamesOf(rows: seq<Option<string>>)
    ensures forall i :: 0 <= i < |rows| && Kept(rows[i]) ==> Trim(rows[i].value) in KeptNames(rows)
    ensures forall y :: y in KeptNames(rows) ==> exists i :: 0 <= i < |rows| && Kept(rows[i]) && Trim(rows[i].value) == y
  {
    if rows != [] {
      var init := rows[..|rows| - 1];
      KeptNamesOf(init);
      assert forall i :: 0 <= i < |init| ==> init[i] == rows[i];
    }
  }

  /** A JavaScript `Set` seeded with `initial` after `add` of each name in order. */
  function Collected(initial: seq<string>, names: seq<string>): seq<string>
  {
    if names == [] then initial
    else AddName(Collected(initial, names[..|names| - 1]), names[|names| - 1])
  }

  /** The set starts with the initial names, holds no name twice, and holds exactly the initial
      and the added names. */
  lemma {:induction false} CollectedNames(initial: seq<string>, names: seq<string>)
    ensures Distinct(initial) ==> Distinct(Collected(initial, names))
    ensures |Collected(initial, names)| >= |initial| && Collected(initial, names)[..|initial|] == initial
    ensures forall y :: y in Collected(initial, names) <==> y in initial || y in names
  {
    if names != [] {
      var init := names[..|names| - 1];
      CollectedNames(initial, init);
      var prev := Collected(initial, init);
      assert names == init + [names[|names| - 1]];
      assert prev[..|initial|] == initial;
      assert AddName(prev, names[|names| - 1])[..|prev|][..|initial|] == initial;
    }
  }

  lemma DefaultsDistinct()
    ensures Distinct(DefaultCategories)
  {
  }

  /** Each kept row of either query contributes its trimmed value. */
  lemma KeptFromBoth(txRows: seq<Option<string>>, budgetRows: seq<Option<string>>)
    ensures forall i :: 0 <= i < |txRows| && Kept(txRows[i]) ==> Trim(txRows[i].value) in KeptNames(txRows + budgetRows)
    ensures forall i :: 0 <= i < |budgetRows| && Kept(budgetRows[i]) ==> Trim(budgetRows[i].value) in KeptNames(txRows + budgetRows)
  {
    var rows := txRows + budgetRows;
    KeptNamesOf(rows);
    assert forall i :: 0 <= i < |txRows| ==> rows[i] == txRows[i];
    assert forall i :: 0 <= i < |budgetRows| ==> rows[|txRows| + i] == budgetRows[i];
  }

  /** What the names collected from the two queries hold. */
  lemma CollectedLegacy(txRows: seq<Option<string>>, budgetRows: seq<Option<string>>)
    ensures var names := Collected(DefaultCategories, KeptNames(txRows + budgetRows));
      && Distinct(names)
      && |names| >= |DefaultCategories| && names[..|DefaultCategories|] == DefaultCategories
      && (forall i :: 0 <= i < |txRows| && Kept(txRows[i]) ==> Trim(txRows[i].value) in names)
      && (forall i :: 0 <= i < |budgetRows| && Kept(budgetRows[i]) ==> Trim(budgetRows[i].value) in names)
      && (forall y :: y in names ==> y in DefaultCategories || y in KeptNames(txRows + budgetRows))
  {
    DefaultsDistinct();
    CollectedNames(DefaultCategories, KeptNames(txRows + budgetRows));
    KeptFromBoth(txRows, budgetRows);
  }

  /** `collectLegacyCategoryNames` over the rows of its two queries: the defaults first, then
      each kept legacy name, trimmed, with no name twice. */
  method CollectLegacyCategoryNames(txRows: seq<Option<string>>, budgetRows: seq<Option<string>>) returns (names: seq<string>)
    ensures names == Collected(DefaultCategories, KeptNames(txRows + budgetRows))
    ensures Distinct(names)
    ensures |names| >= |DefaultCategories| && names[..|DefaultCategories|] == DefaultCategories
    ensures forall i :: 0 <= i < |txRows| && Kept(txRows[i]) ==> Trim(txRows[i].value) in names
    ensures forall i :: 0 <= i < |budgetRows| && Kept(budgetRows[i]) ==> Trim(budgetRows[i].value) in names
    ensures forall y :: y in names ==> y in DefaultCategories || y in KeptNames(txRows + budgetRows)
  {
    var rows := txRows + budgetRows;
    names := DefaultCategories;
    for i := 0 to |rows|
      invariant names == Collected(DefaultCategories, KeptNames(rows[..i]))
    {
      assert rows[..i + 1][..i] == rows[..i];
      var row := rows[i];
      if Kept(row) {
        names := AddName(names, Trim(row.value));
      }
    }
    assert rows[..|rows|] == rows;
    CollectedLegacy(txRows, budgetRows);
  }

  /** The values, in order, of the options that hold one. */
  function Somes(xs: seq<Option<string>>): seq<string>
  {
    if xs == [] then []
    else Somes(xs[..|xs| - 1]) + (if xs[|xs| - 1].Some? then [xs[|xs| - 1].value] else [])
  }

  lemma SomesStep(xs: seq<Option<string>>, i: nat)
    requires i < |xs|
    ensures Somes(xs[..i + 1]) == Somes(xs[..i]) + (if xs[i].Some? then [xs[i].value] else [])
  {
    assert xs[..i + 1][..i] == xs[..i];
  }

  lemma {:induction false} SomesOf(xs: seq<Option<string>>)
    ensures forall x :: x in Somes(xs) <==> exists i :: 0 <= i < |xs| && xs[i] == Some(x)
  {
    if xs != [] {
      var init := xs[..|xs| - 1];
      SomesOf(init);
      assert forall i :: 0 <= i < |init| ==> init[i] == xs[i];
    }
  }

  /** Whether `upsertCategories` inserts a row for a name, and under which (trimmed) name: not
      for a name that is empty once trimmed, nor for one whose normalised form was already in
      the table when the run started. */
  function Pick(original: string, byName: map<string, int>): (r: Option<string>)
    ensures r.Some? ==> r.value == Trim(original) && r.value != [] && Normalize(r.value) !in byName
    ensures r.None? ==> Trim(original) == [] || Normalize(Trim(original)) in byName
  {
    var name := Trim(original);
    if name == [] then None
    else if Normalize(name) in byName then None
    else Some(name)
  }

  /** The decision for each name, in order. */
  function Picks(names: seq<string>, byName: map<string, int>): (r: seq<Option<string>>)
    ensures |r| == |names|
  {
    if names == [] then [] else Picks(names[..|names| - 1], byName) + [Pick(names[|names| - 1], byName)]
  }

  lemma {:induction false} PicksAt(names: seq<string>, byName: map<string, int>, i: nat)
    requires i < |names|
    ensures Picks(names, byName)[i] == Pick(names[i], byName)
  {
    if i < |names| - 1 {
      var init := names[..|names| - 1];
      PicksAt(init, byName, i);
      assert init[i] == names[i];
    }
  }

  /** The names `upsertCategories` inserts rows for, in order. */
  function Selected(names: seq<string>, byName: map<string, int>): seq<string> {
    Somes(Picks(names, byName))
  }

  lemma SelectedAll(names: seq<string>, byName: map<string, int>)
    ensures Somes(Picks(names, byName)[..|names|]) == Selected(names, byName)
  {
    assert Picks(names, byName)[..|names|] == Picks(names, byName);
  }

  lemma PickOf(original: string, byName: map<string, int>)
    requires Trim(original) != [] && Normalize(Trim(original)) !in byName
    ensures Pick(original, byName) == Some(Trim(original))
  {
  }

  /** A name is inserted exactly when some listed name trims to it, and it is not empty and not
      already known in normalised form. */
  lemma SelectedIff(names: seq<string>, byName: map<string, int>, x: string)
    ensures x in Selected(names, byName) <==>
              x != [] && Normalize(x) !in byName && exists i :: 0 <= i < |names| && Trim(names[i]) == x
  {
    var picks := Picks(names, byName);
    SomesOf(picks);
    if x in Selected(names, byName) {
      var i :| 0 <= i < |picks| && picks[i] == Some(x);
      PicksAt(names, byName, i);
      assert Trim(names[i]) == x;
    }
    if x != [] && Normalize(x) !in byName && exists i :: 0 <= i < |names| && Trim(names[i]) == x {
      var i :| 0 <= i < |names| && Trim(names[i]) == x;
      PickOf(names[i], byName);
      PicksAt(names, byName, i);
      assert picks[i] == Some(x);
    }
  }

  /** A row `upsertCategories` inserts. */
  datatype NewCategory = NewCategory(name: string, slug: string, isDefault: bool)

  /** The names of inserted rows, in order. */
  function NamesOf(rows: seq<NewCategory>): (r: seq<string>)
    ensures |r| == |rows|
  {
    if rows == [] then [] else NamesOf(rows[..|rows| - 1]) + [rows[|rows| - 1].name]
  }

  lemma NamesOfAppend(rows: seq<NewCategory>, row: NewCategory)
    ensures NamesOf(rows + [row]) == NamesOf(rows) + [row.name]
  {
    assert (rows + [row])[..|rows|] == rows;
  }

  lemma {:induction false} NamesOfAt(rows: seq<NewCategory>, i: nat)
    requires i < |rows|
    ensures NamesOf(rows)[i] == rows[i].name
  {
    if i < |rows| - 1 {
      var init := rows[..|rows| - 1];
      NamesOfAt(init, i);
      assert init[i] == rows[i];
    }
  }

  /** The slugs of inserted rows. */
  function NewSlugs(rows: seq<NewCategory>): (r: set<string>)
    ensures forall i :: 0 <= i < |rows| ==> rows[i].slug in r
    ensures forall x :: x in r ==> exists i :: 0 <= i < |rows| && rows[i].slug == x
  {
    if rows == [] then {}
    else
      var init := rows[..|rows| - 1];
      assert forall i :: 0 <= i < |init| ==> init[i] == rows[i];
      NewSlugs(init) + {rows[|rows| - 1].slug}
  }

  const InsertPrefix: string := "INSERT INTO \"Category\" (\"name\", \"slug\", \"isDefault\") VALUES ('"

  function SlugTail(row: NewCategory): string {
    ", " + (if row.isDefault then "1" else "0") + ");"
  }

  function ValuesTail(row: NewCategory): string {
    ", '" + Quote(row.slug) + "'" + SlugTail(row)
  }

  /** The statement `upsertCategories` executes for a row. */
  function InsertStatement(row: NewCategory): string {
    InsertPrefix + Quote(row.name) + "'" + ValuesTail(row)
  }

  /** Whatever quotes a name holds, the statement's first string literal reads back as exactly
      that name, and the rest of the statement follows it. */
  lemma NameLiteral(row: NewCategory)
    ensures |InsertStatement(row)| >= |InsertPrefix|
    ensures ReadLiteral(InsertStatement(row)[|InsertPrefix|..]) == Some((row.name, ValuesTail(row)))
  {
    var tail := ValuesTail(row);
    assert tail[0] == ',';
    ReadQuoted(row.name, tail);
    assert InsertStatement(row)[|InsertPrefix|..] == Quote(row.name) + "'" + tail;
  }

  /** Whatever quotes a slug holds, the statement's second string literal reads back as exactly
      that slug, and the default flag follows it. */
  lemma SlugLiteral(row: NewCategory)
    ensures |ValuesTail(row)| >= 3
    ensures ReadLiteral(ValuesTail(row)[3..]) == Some((row.slug, SlugTail(row)))
  {
    assert SlugTail(row)[0] == ',';
    ReadQuoted(row.slug, SlugTail(row));
    assert ValuesTail(row)[3..] == Quote(row.slug) + "'" + SlugTail(row);
  }

  /** The slug of an inserted row is numbered from its name's slug. */
  ghost predicate NumberedFrom(row: NewCategory) {
    exists k: nat :: row.slug == Candidate(SlugRoot(Slugify(row.name)), k)
  }

  /** `slug` is the first candidate numbered from `root` that `used` does not already hold. */
  ghost predicate FirstFreeFrom(slug: string, root: string, used: set<string>) {
    exists k: nat :: slug == Candidate(root, k) && Taken(root, k, used)
  }

  /** The root a row's slug is numbered from: its name's slug, or "category". */
  function NameRoot(name: string): string {
    SlugRoot(Slugify(name))
  }

  /** The slug of a row is the first candidate from its name's slug that `used` does not
      already hold. */
  ghost predicate FirstFree(row: NewCategory, used: set<string>) {
    FirstFreeFrom(row.slug, NameRoot(row.name), used)
  }

  /** An inserted row is marked default exactly when its normalised name is a default. */
  predicate DefaultFlag(row: NewCategory) {
    row.isDefault <==> Normalize(row.name) in DefaultCategories
  }

  /** The slugs of the rows inserted so far are new and pairwise different, and `usedSlugs` is
      the old slugs plus theirs. */
  predicate SlugsFresh(existingSlugs: set<string>, inserted: seq<NewCategory>, usedSlugs: set<string>) {
    && usedSlugs == existingSlugs + NewSlugs(inserted)
    && (forall j :: 0 <= j < |inserted| ==> inserted[j].slug !in existingSlugs)
    && (forall j, k :: 0 <= j < k < |inserted| ==> inserted[j].slug != inserted[k].slug)
  }

  lemma SlugsFreshAppend(existingSlugs: set<string>, inserted: seq<NewCategory>, usedSlugs: set<string>, row: NewCategory)
    requires SlugsFresh(existingSlugs, inserted, usedSlugs)
    requires row.slug !in usedSlugs
    ensures SlugsFresh(existingSlugs, inserted + [row], usedSlugs + {row.slug})
  {
    var after := inserted + [row];
    assert after[..|inserted|] == inserted;
    forall j | 0 <= j < |inserted|
      ensures inserted[j].slug != row.slug
    {
      assert inserted[j].slug in NewSlugs(inserted);
    }
  }

  /** The statements executed for rows, in order. */
  function StatementsOf(rows: seq<NewCategory>): (r: seq<string>)
    ensures |r| == |rows|
  {
    if rows == [] then [] else StatementsOf(rows[..|rows| - 1]) + [InsertStatement(rows[|rows| - 1])]
  }

  lemma {:induction false} StatementsOfEach(rows: seq<NewCategory>)
    ensures forall i :: 0 <= i < |rows| ==> StatementsOf(rows)[i] == InsertStatement(rows[i])
  {
    if rows != [] {
      var init := rows[..|rows| - 1];
      StatementsOfEach(init);
      assert forall i :: 0 <= i < |init| ==> init[i] == rows[i];
    }
  }

  /** The first half of the loop body of `upsertCategories`: the trimmed name and its
      normalised key, unless the name is skipped. */
  method Choose(original: string, byName: map<string, int>) returns (choice: Option<(string, string)>)
    ensures choice.None? <==> Pick(original, byName).None?
    ensures choice.Some? ==> Pick(original, byName) == Some(choice.value.0) && choice.value.1 == Normalize(choice.value.0)
  {
    var name := Trim(original);
    if name == [] {
      return None;
    }
    var key := Normalize(name);
    if key in byName {
      return None;
    }
    return Some((name, key));
  }

  /** The row `upsertCategories` inserts for a selected name, given its normalised key: a slug
      numbered from the name's slug that was not in use, and the default flag. */
  method NewRow(name: string, key: string, usedSlugs: set<string>) returns (row: NewCategory, usedAfter: set<string>)
    requires key == Normalize(name)
    ensures row.name == name && NumberedFrom(row) && DefaultFlag(row)
    ensures row.slug !in usedSlugs && usedAfter == usedSlugs + {row.slug}
    ensures FirstFree(row, usedSlugs)
  {
    var base := Slugify(name);
    var slug;
    slug, usedAfter := UniqueSlug(base, usedSlugs);
    var isDefault := key in DefaultCategories;
    row := NewCategory(name, slug, isDefault);
  }

  /** A slug that was the first free one is numbered from its name's slug. */
  lemma FirstFreeNumbered(row: NewCategory, used: set<string>)
    requires FirstFree(row, used)
    ensures NumberedFrom(row)
  {
  }

  /** `roots` holds the name root of each row, and every row carries the right default flag. */
  ghost predicate RootsOk(rows: seq<NewCategory>, roots: seq<string>) {
    && |roots| == |rows|
    && forall j {:trigger NameRoot(rows[j].name)} :: 0 <= j < |rows| ==>
         roots[j] == NameRoot(rows[j].name) && DefaultFlag(rows[j])
  }

  lemma RootsOkAppend(rows: seq<NewCategory>, roots: seq<string>, row: NewCategory)
    requires RootsOk(rows, roots) && DefaultFlag(row)
    ensures RootsOk(rows + [row], roots + [NameRoot(row.name)])
  {
    var after, rootsAfter := rows + [row], roots + [NameRoot(row.name)];
    forall j | 0 <= j < |after|
      ensures rootsAfter[j] == NameRoot(after[j].name) && DefaultFlag(after[j])
    {
      if j < |rows| {
        assert after[j] == rows[j] && rootsAfter[j] == roots[j];
      }
    }
  }

  /** Each row's slug was the first free one from its root when it was made: free of the old
      slugs and of the slugs of the rows before it. */
  ghost predicate FirstFreeRows(existingSlugs: set<string>, rows: seq<NewCategory>, roots: seq<string>) {
    |roots| == |rows| &&
      (rows == [] ||
        var n := |rows| - 1;
        FirstFreeRows(existingSlugs, rows[..n], roots[..n])
        && FirstFreeFrom(rows[n].slug, roots[n], existingSlugs + NewSlugs(rows[..n])))
  }

  lemma FirstFreeRowsAppend(existingSlugs: set<string>, rows: seq<NewCategory>, roots: seq<string>,
                            row: NewCategory, root: string)
    requires FirstFreeRows(existingSlugs, rows, roots)
    requires FirstFreeFrom(row.slug, root, existingSlugs + NewSlugs(rows))
    ensures FirstFreeRows(existingSlugs, rows + [row], roots + [root])
  {
  }

  /** What `FirstFreeRows` says of one row. */
  lemma {:induction false} FirstFreeRowsAt(existingSlugs: set<string>, rows: seq<NewCategory>,
                                           roots: seq<string>, j: nat)
    requires FirstFreeRows(existingSlugs, rows, roots) && j < |rows|
    ensures FirstFreeFrom(rows[j].slug, roots[j], existingSlugs + NewSlugs(rows[..j]))
  {
    var n := |rows| - 1;
    if j < n {
      FirstFreeRowsAt(existingSlugs, rows[..n], roots[..n], j);
      assert rows[..n][j] == rows[j] && roots[..n][j] == roots[j] && rows[..n][..j] == rows[..j];
    }
  }

  /** What holds of the rows inserted so far: their slugs are fresh, each the first free one
      from its name's root, their default flags are right, and one statement was executed
      per row. */
  ghost predicate Progress(existingSlugs: set<string>, inserted: seq<NewCategory>, usedSlugs: set<string>,
                           statements: seq<string>, roots: seq<string>) {
    && SlugsFresh(existingSlugs, inserted, usedSlugs) && RootsOk(inserted, roots)
    && FirstFreeRows(existingSlugs, inserted, roots) && statements == StatementsOf(inserted)
  }

  lemma StatementsAppend(rows: seq<NewCategory>, row: NewCategory)
    ensures StatementsOf(rows + [row]) == StatementsOf(rows) + [InsertStatement(row)]
  {
    assert (rows + [row])[..|rows|] == rows;
  }

  lemma ProgressAppend(existingSlugs: set<string>, inserted: seq<NewCategory>, usedSlugs: set<string>,
                       statements: seq<string>, roots: seq<string>, row: NewCategory)
    requires Progress(existingSlugs, inserted, usedSlugs, statements, roots)
    requires row.slug !in usedSlugs && DefaultFlag(row)
    requires FirstFreeFrom(row.slug, NameRoot(row.name), usedSlugs)
    ensures Progress(existingSlugs, inserted + [row], usedSlugs + {row.slug},
                     statements + [InsertStatement(row)], roots + [NameRoot(row.name)])
  {
    SlugsFreshAppend(existingSlugs, inserted, usedSlugs, row);
    RootsOkAppend(inserted, roots, row);
    FirstFreeRowsAppend(existingSlugs, inserted, roots, row, NameRoot(row.name));
    StatementsAppend(inserted, row);
  }

  /** What the rows inserted so far satisfy, spelled out row by row. */
  lemma ProgressRows(existingSlugs: set<string>, inserted: seq<NewCategory>, usedSlugs: set<string>,
                     statements: seq<string>, roots: seq<string>)
    requires Progress(existingSlugs, inserted, usedSlugs, statements, roots)
    ensures forall i :: 0 <= i < |inserted| ==> DefaultFlag(inserted[i]) && NumberedFrom(inserted[i])
    ensures forall i :: 0 <= i < |inserted| ==> inserted[i].slug !in existingSlugs
    ensures forall i, j :: 0 <= i < j < |inserted| ==> inserted[i].slug != inserted[j].slug
    ensures forall i :: 0 <= i < |inserted| ==> FirstFree(inserted[i], existingSlugs + NewSlugs(inserted[..i]))
    ensures |statements| == |inserted| && forall i :: 0 <= i < |inserted| ==> statements[i] == InsertStatement(inserted[i])
  {
    StatementsOfEach(inserted);
    forall i | 0 <= i < |inserted|
      ensures FirstFree(inserted[i], existingSlugs + NewSlugs(inserted[..i]))
      ensures NumberedFrom(inserted[i])
    {
      FirstFreeRowsAt(existingSlugs, inserted, roots, i);
      FirstFreeNumbered(inserted[i], existingSlugs + NewSlugs(inserted[..i]));
    }
  }

  lemma ProgressStart(existingSlugs: set<string>)
    ensures Progress(existingSlugs, [], existingSlugs, [], [])
  {
  }

  /** The second half of the loop body of `upsertCategories`: insert the row for a selected name
      and execute its statement. */
  method Insert(ghost existingSlugs: set<string>, name: string, key: string, inserted: seq<NewCategory>,
                usedSlugs: set<string>, statements: seq<string>, ghost roots: seq<string>)
    returns (insertedAfter: seq<NewCategory>, usedAfter: set<string>, statementsAfter: seq<string>,
             ghost rootsAfter: seq<string>)
    requires key == Normalize(name)
    requires Progress(existingSlugs, inserted, usedSlugs, statements, roots)
    ensures Progress(existingSlugs, insertedAfter, usedAfter, statementsAfter, rootsAfter)
    ensures NamesOf(insertedAfter) == NamesOf(inserted) + [name]
  {
    var row;
    row, usedAfter := NewRow(name, key, usedSlugs);
    ProgressAppend(existingSlugs, inserted, usedSlugs, statements, roots, row);
    NamesOfAppend(inserted, row);
    insertedAfter := inserted + [row];
    statementsAfter := statements + [InsertStatement(row)];
    rootsAfter := roots + [NameRoot(row.name)];
  }

  /** One pass of the loop body of `upsertCategories`, for one collected name. */
  method Step(ghost existingSlugs: set<string>, ghost pick: Option<string>, original: string,
              byName: map<string, int>, inserted: seq<NewCategory>, usedSlugs: set<string>,
              statements: seq<string>, ghost roots: seq<string>)
    returns (insertedAfter: seq<NewCategory>, usedAfter: set<string>, statementsAfter: seq<string>,
             ghost rootsAfter: seq<string>)
    requires pick == Pick(original, byName)
    requires Progress(existingSlugs, inserted, usedSlugs, statements, roots)
    ensures Progress(existingSlugs, insertedAfter, usedAfter, statementsAfter, rootsAfter)
    ensures NamesOf(insertedAfter) == NamesOf(inserted) + (if pick.Some? then [pick.value] else [])
  {
    var choice := Choose(original, byName);
    if choice.None? {
      return inserted, usedSlugs, statements, roots;
    }
    var (name, key) := choice.value;
    insertedAfter, usedAfter, statementsAfter, rootsAfter :=
      Insert(existingSlugs, name, key, inserted, usedSlugs, statements, roots);
  }

  /** The loop of `upsertCategories`: one pass of `Step` per collected name, starting from the
      slugs already in use. */
  method InsertSelected(names: seq<string>, byName: map<string, int>, usedSlugs: set<string>)
    returns (inserted: seq<NewCategory>, usedAfter: set<string>, statements: seq<string>,
             ghost roots: seq<string>)
    ensures NamesOf(inserted) == Selected(names, byName)
    ensures Progress(usedSlugs, inserted, usedAfter, statements, roots)
  {
    ghost var picks := Picks(names, byName);
    inserted, usedAfter, statements, roots := [], usedSlugs, [], [];
    ProgressStart(usedSlugs);
    for i := 0 to |names|
      invariant NamesOf(inserted) == Somes(picks[..i])
      invariant Progress(usedSlugs, inserted, usedAfter, statements, roots)
    {
      SomesStep(picks, i);
      PicksAt(names, byName, i);
      inserted, usedAfter, statements, roots :=
        Step(usedSlugs, picks[i], names[i], byName, inserted, usedAfter, statements, roots);
    }
    SelectedAll(names, byName);
  }

  /** `upsertCategories` over the rows already in the table and the collected names: the rows
      it inserts, and the statements it executes for them. */
  method UpsertCategories(existing: seq<CategoryRow>, names: seq<string>) returns (inserted: seq<NewCategory>, statements: seq<string>)
    ensures NamesOf(inserted) == Selected(names, NameIndex(existing))
    ensures forall i :: 0 <= i < |inserted| ==> DefaultFlag(inserted[i]) && NumberedFrom(inserted[i])
    ensures forall i :: 0 <= i < |inserted| ==> inserted[i].slug !in SlugsOf(existing)
    ensures forall i, j :: 0 <= i < j < |inserted| ==> inserted[i].slug != inserted[j].slug
    ensures forall i :: 0 <= i < |inserted| ==> FirstFree(inserted[i], SlugsOf(existing) + NewSlugs(inserted[..i]))
    ensures |statements| == |inserted| && forall i :: 0 <= i < |inserted| ==> statements[i] == InsertStatement(inserted[i])
  {
    var byName, usedSlugs := LoadExistingCategoryMap(existing);
    var usedAfter;
    ghost var roots;
    inserted, usedAfter, statements, roots := InsertSelected(names, byName, usedSlugs);
    ProgressRows(usedSlugs, inserted, usedAfter, statements, roots);
  }
}
