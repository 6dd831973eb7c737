/**
 The plain words for an error code (src/common/error-wording/error-wording.ts).  The catalogue is kept as
 nested maps and a list of prefix codes, longest first; `Search` says what a look-up in it must find by
 going over the rows alone.
 */
module ErrorWording {
  import opened Prelude

  datatype Wording = Wording(title: string, line: string, todo: string)

  /** A row of the catalogue as it is stored. */
  datatype Stored = Stored(code: string, variant: string, lang: string, words: Wording)

  /** The rows that belong together: one language and one code, or one code prefix. */
  datatype Group = Group(lang: string, prefix: bool, key: string)

  /** `wanted` None is `*`, any value. */
  datatype Variant = Variant(key: string, wanted: Option<string>)

  /** A row as it is read: no variant is the plain row. */
  datatype Row = Row(group: Group, variant: Option<Variant>, words: Wording)

  /** An error: its code, and those of its fields that hold a string, a number or a boolean. */
  datatype Detail = Detail(code: Option<string>, values: map<string, string>)

  const DEFAULT_LANG := "en"

  function IndexOf(s: string, c: char): (i: int)
    ensures -1 <= i < |s|
    ensures i >= 0 ==> s[i] == c && c !in s[..i]
    ensures i < 0 ==> c !in s
  {
    if s == "" then -1
    else
      var i := IndexOf(s[..|s| - 1], c);
      assert s == s[..|s| - 1] + [s[|s| - 1]];
      if i >= 0 then assert s[..|s| - 1][..i] == s[..i]; i
      else if s[|s| - 1] == c then |s| - 1 else -1
  }

  function ParseVariant(variant: string): Option<Variant> {
    var at := IndexOf(variant, '=');
    if at <= 0 then None
    else
      var value := variant[at + 1..];
      Some(Variant(variant[..at], if value == "*" then None else Some(value)))
  }

  /** Writing a variant out and reading it back; a key holds no '=' and a value is not the star. */
  lemma {:induction false} VariantReadsBack(key: string, value: string)
    requires key != "" && '=' !in key
    ensures ParseVariant(key + "=" + value) == Some(Variant(key, if value == "*" then None else Some(value)))
  {
    var s := key + "=" + value;
    var at := IndexOf(s, '=');
    assert s[|key|] == '=';
    assert forall j | 0 <= j < |key| :: s[j] == key[j];
    assert forall m | |key| < m <= |s| :: s[..m][|key|] == '=';
    assert s[..|key|] == key && s[|key| + 1..] == value;
  }

  /** A code that ends in a star stands for every code it is the beginning of. */
  function GroupOf(code: string, lang: string): Group {
    if code != "" && code[|code| - 1] == '*' then Group(lang, true, code[..|code| - 1]) else Group(lang, false, code)
  }

  function Read(row: Stored): Row { Row(GroupOf(row.code, row.lang), ParseVariant(row.variant), row.words) }

  // ---------------------------------------------------------------- the plain search

  function Members(rows: seq<Row>, g: Group): seq<Row> {
    if rows == [] then []
    else
      var before, r := Members(rows[..|rows| - 1], g), rows[|rows| - 1];
      if r.group == g then before + [r] else before
  }

  datatype Rank = ByField | ByValue | ByAny | Plain

  /** How a row speaks about an error, if it does. */
  predicate Speaks(r: Row, rank: Rank, d: Detail) {
    var v := r.variant;
    match rank
    case ByField => v.Some? && v.value.key == "field" && v.value.wanted.Some? && Has(d, "field", v.value.wanted.value)
    case ByValue => v.Some? && v.value.key != "field" && v.value.wanted.Some? && Has(d, v.value.key, v.value.wanted.value)
    case ByAny => v.Some? && v.value.wanted.None? && v.value.key in d.values
    case Plain => v.None?
  }

  predicate Has(d: Detail, key: string, value: string) { key in d.values && d.values[key] == value }

  function First(rows: seq<Row>, rank: Rank, d: Detail): Option<Row> {
    if rows == [] then None
    else if Speaks(rows[0], rank, d) then Some(rows[0]) else First(rows[1..], rank, d)
  }

  function Last(rows: seq<Row>, rank: Rank, d: Detail): Option<Row> {
    if rows == [] then None
    else if Speaks(rows[|rows| - 1], rank, d) then Some(rows[|rows| - 1]) else Last(rows[..|rows| - 1], rank, d)
  }

  function Or(a: Option<Row>, b: Option<Row>): Option<Row> { if a.Some? then a else b }

  /** `field=` first, then a value, then a star, then the plain row, the latest of those. */
  function BestOf(rows: seq<Row>, d: Detail): Option<Row> {
    Or(First(rows, ByField, d), Or(First(rows, ByValue, d), Or(First(rows, ByAny, d), Last(rows, Plain, d))))
  }

  /** Prefixes of the code of at most n characters, longest first; one that has no words is passed over. */
  function SearchPrefixes(rows: seq<Row>, lang: string, code: string, n: int, d: Detail): Option<Row>
    requires -1 <= n <= |code|
    decreases n + 1
  {
    if n < 0 then None
    else Or(BestOf(Members(rows, Group(lang, true, code[..n])), d), SearchPrefixes(rows, lang, code, n - 1, d))
  }

  function SearchLang(rows: seq<Row>, lang: string, code: string, d: Detail): Option<Row> {
    Or(BestOf(Members(rows, Group(lang, false, code)), d), SearchPrefixes(rows, lang, code, |code|, d))
  }

  function Words(r: Option<Row>): Option<Wording> { if r.Some? then Some(r.value.words) else None }

  function Search(rows: seq<Row>, d: Detail, lang: string): Option<Wording> {
    if d.code.None? || d.code.value == "" then None
    else
      var here := SearchLang(rows, lang, d.code.value, d);
      Words(if here.Some? || lang == DEFAULT_LANG then here else SearchLang(rows, DEFAULT_LANG, d.code.value, d))
  }

  // ---------------------------------------------------------------- what the search finds

  /** Only the order within one code and language matters: codes may be listed in any order. */
  lemma {:induction false} PrefixesByGroup(a: seq<Row>, b: seq<Row>, lang: string, code: string, n: int, d: Detail)
    requires -1 <= n <= |code|
    requires forall g :: Members(a, g) == Members(b, g)
    ensures SearchPrefixes(a, lang, code, n, d) == SearchPrefixes(b, lang, code, n, d)
    decreases n + 1
  {
    if n >= 0 {
      assert Members(a, Group(lang, true, code[..n])) == Members(b, Group(lang, true, code[..n]));
      PrefixesByGroup(a, b, lang, code, n - 1, d);
    }
  }

  lemma {:induction false} OrderOfCodesIrrelevant(a: seq<Row>, b: seq<Row>, d: Detail, lang: string)
    requires forall g :: Members(a, g) == Members(b, g)
    ensures Search(a, d, lang) == Search(b, d, lang)
  {
    if d.code.Some? && d.code.value != "" {
      var code := d.code.value;
      PrefixesByGroup(a, b, lang, code, |code|, d);
      PrefixesByGroup(a, b, DEFAULT_LANG, code, |code|, d);
      assert Members(a, Group(lang, false, code)) == Members(b, Group(lang, false, code));
      assert Members(a, Group(DEFAULT_LANG, false, code)) == Members(b, Group(DEFAULT_LANG, false, code));
    }
  }

  /** The prefix found is the longest one that has words for the error. */
  lemma {:induction false} LongestPrefixWins(rows: seq<Row>, lang: string, code: string, n: int, d: Detail, k: nat)
    requires k <= n <= |code|
    requires BestOf(Members(rows, Group(lang, true, code[..k])), d).Some?
    requires forall j | k < j <= n :: BestOf(Members(rows, Group(lang, true, code[..j])), d).None?
    ensures SearchPrefixes(rows, lang, code, n, d) == BestOf(Members(rows, Group(lang, true, code[..k])), d)
    decreases n
  {
    if k < n {
      LongestPrefixWins(rows, lang, code, n - 1, d, k);
    }
  }

  // ---------------------------------------------------------------- the index

  datatype Kept = Kept(variant: Variant, row: Row)

  datatype Entry = Entry(plain: Option<Row>, variants: seq<Kept>)

  const NO_ENTRY := Entry(None, [])

  function Add(e: Entry, r: Row): Entry {
    if r.variant.Some? then e.(variants := e.variants + [Kept(r.variant.value, r)]) else e.(plain := Some(r))
  }

  predicate Fits(k: Kept, rank: Rank, d: Detail) {
    match rank
    case ByField => k.variant.key == "field" && k.variant.wanted.Some? && Has(d, "field", k.variant.wanted.value)
    case ByValue => k.variant.key != "field" && k.variant.wanted.Some? && Has(d, k.variant.key, k.variant.wanted.value)
    case ByAny => k.variant.wanted.None? && k.variant.key in d.values
    case Plain => false
  }

  function Find(variants: seq<Kept>, rank: Rank, d: Detail): Option<Row> {
    if variants == [] then None
    else if Fits(variants[0], rank, d) then Some(variants[0].row) else Find(variants[1..], rank, d)
  }

  function Pick(e: Entry, d: Detail): Option<Row> {
    Or(Find(e.variants, ByField, d), Or(Find(e.variants, ByValue, d), Or(Find(e.variants, ByAny, d), e.plain)))
  }

  ghost function EntryOf(rows: seq<Row>): Entry {
    if rows == [] then NO_ENTRY else Add(EntryOf(rows[..|rows| - 1]), rows[|rows| - 1])
  }

  lemma {:induction false} FindAppend(variants: seq<Kept>, k: Kept, rank: Rank, d: Detail)
    ensures Find(variants + [k], rank, d)
         == Or(Find(variants, rank, d), if Fits(k, rank, d) then Some(k.row) else None)
  {
    if variants == [] {
      assert variants + [k] == [k];
    } else {
      assert (variants + [k])[1..] == variants[1..] + [k];
      FindAppend(variants[1..], k, rank, d);
    }
  }

  lemma {:induction false} FirstAppend(rows: seq<Row>, r: Row, rank: Rank, d: Detail)
    ensures First(rows + [r], rank, d) == Or(First(rows, rank, d), if Speaks(r, rank, d) then Some(r) else None)
  {
    if rows == [] {
      assert rows + [r] == [r];
    } else {
      assert (rows + [r])[1..] == rows[1..] + [r];
      FirstAppend(rows[1..], r, rank, d);
    }
  }

  lemma {:induction false} FindIsFirst(rows: seq<Row>, rank: Rank, d: Detail)
    requires !rank.Plain?
    ensures Find(EntryOf(rows).variants, rank, d) == First(rows, rank, d)
  {
    if rows != [] {
      var n := |rows| - 1;
      var r, e := rows[n], EntryOf(rows[..n]);
      FindIsFirst(rows[..n], rank, d);
      assert rows == rows[..n] + [r];
      FirstAppend(rows[..n], r, rank, d);
      if r.variant.Some? {
        FindAppend(e.variants, Kept(r.variant.value, r), rank, d);
      }
    }
  }

  lemma {:induction false} PlainIsLast(rows: seq<Row>, d: Detail)
    ensures EntryOf(rows).plain == Last(rows, Plain, d)
  {
    if rows != [] {
      PlainIsLast(rows[..|rows| - 1], d);
    }
  }

  /** An entry gives what its rows give. */
  lemma {:induction false} PickIsBest(rows: seq<Row>, d: Detail)
    ensures Pick(EntryOf(rows), d) == BestOf(rows, d)
  {
    FindIsFirst(rows, ByField, d);
    FindIsFirst(rows, ByValue, d);
    FindIsFirst(rows, ByAny, d);
    PlainIsLast(rows, d);
  }

  // ---------------------------------------------------------------- tables of prefixes

  /** Prefixes in some order, and their entries. */
  datatype Table = Table(order: seq<string>, entries: map<string, Entry>)

  const NO_TABLE := Table([], map[])

  function EntryIn(t: Table, prefix: string): Entry { if prefix in t.entries then t.entries[prefix] else NO_ENTRY }

  /** A prefix seen for the first time goes last. */
  function Put(t: Table, prefix: string, r: Row): Table {
    Table(if prefix in t.entries then t.order else t.order + [prefix], t.entries[prefix := Add(EntryIn(t, prefix), r)])
  }

  ghost predicate Distinct(order: seq<string>) { forall i, j | 0 <= i < j < |order| :: order[i] != order[j] }

  ghost predicate Tidy(t: Table) { Distinct(t.order) && forall x :: x in t.order <==> x in t.entries }

  /** Longer prefixes first; among equals, as they were. */
  function Insert(p: string, order: seq<string>): seq<string> {
    if order == [] || |order[0]| <= |p| then [p] + order else [order[0]] + Insert(p, order[1..])
  }

  function Sort(order: seq<string>): seq<string> {
    if order == [] then [] else Insert(order[0], Sort(order[1..]))
  }

  ghost predicate LongestFirst(order: seq<string>) { forall i, j | 0 <= i < j < |order| :: |order[i]| >= |order[j]| }

  lemma {:induction false} InsertKeeps(p: string, order: seq<string>)
    requires Distinct(order) && LongestFirst(order) && p !in order
    ensures var r := Insert(p, order);
      Distinct(r) && LongestFirst(r) && forall x :: x in r <==> x == p || x in order
  {
    if order != [] && |order[0]| > |p| {
      var rest := order[1..];
      assert order == [order[0]] + rest;
      InsertKeeps(p, rest);
      var r := Insert(p, rest);
      forall j | 0 <= j < |r| ensures r[j] != order[0] && |order[0]| >= |r[j]| {
        assert r[j] in r;
      }
    }
  }

  /** Sorting keeps every prefix, once. */
  lemma {:induction false} SortKeeps(order: seq<string>)
    requires Distinct(order)
    ensures Distinct(Sort(order)) && LongestFirst(Sort(order))
    ensures forall x :: x in Sort(order) <==> x in order
  {
    if order != [] {
      SortKeeps(order[1..]);
      assert order == [order[0]] + order[1..];
      InsertKeeps(order[0], Sort(order[1..]));
    }
  }

  // ---------------------------------------------------------------- the table, longest first, is the search

  predicate StartsWith(code: string, prefix: string) { |prefix| <= |code| && code[..|prefix|] == prefix }

  function Scan(t: Table, i: nat, code: string, d: Detail): Option<Row>
    requires i <= |t.order|
    decreases |t.order| - i
  {
    if i == |t.order| then None
    else if StartsWith(code, t.order[i]) then Or(Pick(EntryIn(t, t.order[i]), d), Scan(t, i + 1, code, d))
    else Scan(t, i + 1, code, d)
  }

  /** What the rows say about a prefix. */
  ghost function Said(rows: seq<Row>, lang: string, prefix: string): Entry {
    EntryOf(Members(rows, Group(lang, true, prefix)))
  }

  ghost predicate EntryHolds(t: Table, rows: seq<Row>, lang: string, prefix: string) {
    EntryIn(t, prefix) == Said(rows, lang, prefix)
  }

  /** A table that holds the prefix rows of a language. */
  ghost predicate Holds(t: Table, rows: seq<Row>, lang: string) {
    Tidy(t) && forall prefix {:trigger EntryHolds(t, rows, lang, prefix)} :: EntryHolds(t, rows, lang, prefix)
  }

  /** Prefixes before i are longer than n, those from i on are not; others do not matter. */
  ghost predicate Split(order: seq<string>, i: nat, code: string, n: int) {
    && i <= |order|
    && (forall j | 0 <= j < i :: |order[j]| > n || !StartsWith(code, order[j]))
    && (forall j | i <= j < |order| :: |order[j]| <= n || !StartsWith(code, order[j]))
  }

  lemma {:induction false} SearchStep(rows: seq<Row>, lang: string, code: string, n: int, d: Detail)
    requires 0 <= n <= |code|
    ensures SearchPrefixes(rows, lang, code, n, d)
         == Or(Pick(Said(rows, lang, code[..n]), d), SearchPrefixes(rows, lang, code, n - 1, d))
  {
    PickIsBest(Members(rows, Group(lang, true, code[..n])), d);
  }

  /** The prefix at i is the next one to try. */
  lemma {:induction false} ScanHit(t: Table, i: nat, rows: seq<Row>, lang: string, code: string, n: nat, d: Detail)
    requires Holds(t, rows, lang) && n <= |code| && i < |t.order| && StartsWith(code, t.order[i]) && |t.order[i]| == n
    requires Scan(t, i + 1, code, d) == SearchPrefixes(rows, lang, code, n - 1, d)
    ensures Scan(t, i, code, d) == SearchPrefixes(rows, lang, code, n, d)
  {
    assert EntryHolds(t, rows, lang, t.order[i]);
    SearchStep(rows, lang, code, n, d);
  }

  /** No row has the prefix of n characters. */
  lemma {:induction false} ScanMiss(t: Table, i: nat, rows: seq<Row>, lang: string, code: string, n: nat, d: Detail)
    requires Holds(t, rows, lang) && n <= |code| && code[..n] !in t.order && i <= |t.order|
    requires Scan(t, i, code, d) == SearchPrefixes(rows, lang, code, n - 1, d)
    ensures Scan(t, i, code, d) == SearchPrefixes(rows, lang, code, n, d)
  {
    assert EntryHolds(t, rows, lang, code[..n]);
    SearchStep(rows, lang, code, n, d);
  }

  lemma {:induction false} SameLength(code: string, p: string, q: string)
    requires StartsWith(code, p) && StartsWith(code, q)
    ensures |p| == |q| ==> p == q
  {
  }

  /** Distinct prefixes of one code have distinct lengths. */
  lemma {:induction false} SplitHit(order: seq<string>, i: nat, code: string, n: nat)
    requires Distinct(order) && LongestFirst(order) && Split(order, i, code, n)
    requires i < |order| && StartsWith(code, order[i]) && |order[i]| == n
    ensures Split(order, i + 1, code, n - 1)
  {
    forall j | i < j < |order| && StartsWith(code, order[j]) ensures |order[j]| <= n - 1 {
      SameLength(code, order[i], order[j]);
    }
  }

  lemma {:induction false} SplitSkip(order: seq<string>, i: nat, code: string, n: int)
    requires Split(order, i, code, n) && i < |order| && !StartsWith(code, order[i])
    ensures Split(order, i + 1, code, n)
  {
  }

  lemma {:induction false} SplitMiss(order: seq<string>, i: nat, code: string, n: nat)
    requires LongestFirst(order) && Split(order, i, code, n) && n <= |code|
    requires i < |order| ==> StartsWith(code, order[i]) && |order[i]| != n
    ensures code[..n] !in order && Split(order, i, code, n - 1)
  {
    forall j | 0 <= j < |order| ensures order[j] != code[..n] {
      assert i <= j ==> |order[j]| <= |order[i]|;
    }
  }

  lemma {:induction false} ScanIsSearch(t: Table, i: nat, rows: seq<Row>, lang: string, code: string, n: int, d: Detail)
    requires Holds(t, rows, lang) && LongestFirst(t.order)
    requires -1 <= n <= |code| && Split(t.order, i, code, n)
    ensures Scan(t, i, code, d) == SearchPrefixes(rows, lang, code, n, d)
    decreases |t.order| - i + n + 1
  {
    if i < |t.order| && !StartsWith(code, t.order[i]) {
      SplitSkip(t.order, i, code, n);
      ScanIsSearch(t, i + 1, rows, lang, code, n, d);
    } else if i < |t.order| && |t.order[i]| == n {
      SplitHit(t.order, i, code, n);
      ScanIsSearch(t, i + 1, rows, lang, code, n - 1, d);
      ScanHit(t, i, rows, lang, code, n, d);
    } else if n >= 0 {
      SplitMiss(t.order, i, code, n);
      ScanIsSearch(t, i, rows, lang, code, n - 1, d);
      ScanMiss(t, i, rows, lang, code, n, d);
    }
  }

  // ---------------------------------------------------------------- the registry

  type ExactIndex = map<string, map<string, Entry>>

  type PrefixIndex = map<string, Table>

  function EntryAt(index: ExactIndex, lang: string, code: string): Entry {
    if lang in index && code in index[lang] then index[lang][code] else NO_ENTRY
  }

  function TableAt(index: PrefixIndex, lang: string): Table { if lang in index then index[lang] else NO_TABLE }

  ghost predicate ExactHolds(index: ExactIndex, rows: seq<Row>) {
    forall lang, code :: EntryAt(index, lang, code) == EntryOf(Members(rows, Group(lang, false, code)))
  }

  ghost predicate PrefixesHold(index: PrefixIndex, rows: seq<Row>) {
    forall lang :: Holds(TableAt(index, lang), rows, lang)
  }

  function PutExact(index: ExactIndex, r: Row): ExactIndex {
    var codes := if r.group.lang in index then index[r.group.lang] else map[];
    index[r.group.lang := codes[r.group.key := Add(EntryAt(index, r.group.lang, r.group.key), r)]]
  }

  function PutTable(index: PrefixIndex, r: Row): PrefixIndex {
    index[r.group.lang := Put(TableAt(index, r.group.lang), r.group.key, r)]
  }

  lemma {:induction false} ExactAdds(index: ExactIndex, rows: seq<Row>, r: Row)
    requires ExactHolds(index, rows)
    ensures ExactHolds(if r.group.prefix then index else PutExact(index, r), rows + [r])
  {
    var index' := if r.group.prefix then index else PutExact(index, r);
    forall lang, code
      ensures EntryAt(index', lang, code) == EntryOf(Members(rows + [r], Group(lang, false, code)))
    {
    }
  }

  lemma {:induction false} TableAdds(t: Table, rows: seq<Row>, r: Row, lang: string)
    requires Holds(t, rows, lang)
    ensures Holds(if r.group.prefix && r.group.lang == lang then Put(t, r.group.key, r) else t, rows + [r], lang)
  {
    var t' := if r.group.prefix && r.group.lang == lang then Put(t, r.group.key, r) else t;
    forall prefix ensures EntryHolds(t', rows + [r], lang, prefix) {
      assert EntryHolds(t, rows, lang, prefix);
    }
  }

  lemma {:induction false} PrefixesAdd(index: PrefixIndex, rows: seq<Row>, r: Row)
    requires PrefixesHold(index, rows)
    ensures PrefixesHold(if r.group.prefix then PutTable(index, r) else index, rows + [r])
  {
    var index' := if r.group.prefix then PutTable(index, r) else index;
    forall lang ensures Holds(TableAt(index', lang), rows + [r], lang) {
      assert Holds(TableAt(index, lang), rows, lang);
      TableAdds(TableAt(index, lang), rows, r, lang);
    }
  }

  lemma {:induction false} SortedHolds(t: Table, rows: seq<Row>, lang: string)
    requires Holds(t, rows, lang)
    ensures Holds(t.(order := Sort(t.order)), rows, lang) && LongestFirst(Sort(t.order))
  {
    SortKeeps(t.order);
    var t' := t.(order := Sort(t.order));
    forall prefix ensures EntryHolds(t', rows, lang, prefix) {
      assert EntryHolds(t, rows, lang, prefix);
    }
  }

  function ReadAll(rows: seq<Stored>): seq<Row> {
    seq(|rows|, i requires 0 <= i < |rows| => Read(rows[i]))
  }

  // ---------------------------------------------------------------- the catalogue in plain terms

  /** The variant of a stored row asks for this value of this key. */
  ghost predicate Asks(variant: string, key: string, value: string) {
    key != "" && '=' !in key && variant == key + "=" + value
  }

  /** How a stored row speaks about an error. */
  ghost predicate SpeaksAs(row: Stored, rank: Rank, d: Detail) {
    match rank
    case ByField => exists value :: Asks(row.variant, "field", value) && value != "*" && "field" in d.values && d.values["field"] == value
    case ByValue =>
      exists key, value :: Asks(row.variant, key, value) && key != "field" && value != "*" && key in d.values && d.values[key] == value
    case ByAny => exists key :: Asks(row.variant, key, "*") && key in d.values
    case Plain => '=' !in row.variant || row.variant[0] == '='
  }

  /** Which codes it speaks for: the one it names, or, ending in a star, every one that begins as it does before the star. */
  ghost predicate SpeaksFor(row: Stored, code: string) {
    var n := |row.code|;
    if n > 0 && row.code[n - 1] == '*' then n - 1 <= |code| && code[..n - 1] == row.code[..n - 1] else code == row.code
  }

  lemma {:induction false} VariantIs(variant: string) returns (key: string, value: string)
    ensures ParseVariant(variant).None? <==> '=' !in variant || variant[0] == '='
    ensures ParseVariant(variant).Some? ==>
      Asks(variant, key, value) && ParseVariant(variant) == Some(Variant(key, if value == "*" then None else Some(value)))
  {
    var at := IndexOf(variant, '=');
    key, value := "", "";
    if at > 0 {
      key, value := variant[..at], variant[at + 1..];
      assert variant == key + "=" + value;
    }
  }

  lemma {:induction false} AsksOnce(variant: string, key: string, value: string)
    requires Asks(variant, key, value)
    ensures ParseVariant(variant) == Some(Variant(key, if value == "*" then None else Some(value)))
  {
    VariantReadsBack(key, value);
  }

  lemma {:induction false} AsksMeans(row: Stored, d: Detail, key: string, value: string)
    requires Asks(row.variant, key, value)
    ensures key == "field" && value != "*" && Has(d, key, value) ==> Speaks(Read(row), ByField, d)
    ensures key != "field" && value != "*" && Has(d, key, value) ==> Speaks(Read(row), ByValue, d)
    ensures value == "*" && key in d.values ==> Speaks(Read(row), ByAny, d)
  {
    AsksOnce(row.variant, key, value);
  }

  lemma {:induction false} SpeaksMeans(row: Stored, rank: Rank, d: Detail)
    requires Speaks(Read(row), rank, d)
    ensures SpeaksAs(row, rank, d)
  {
    var key, value := VariantIs(row.variant);
  }

  lemma {:induction false} SpeaksIff(row: Stored, rank: Rank, d: Detail)
    ensures Speaks(Read(row), rank, d) <==> SpeaksAs(row, rank, d)
  {
    if Speaks(Read(row), rank, d) { SpeaksMeans(row, rank, d); }
    if SpeaksAs(row, rank, d) {
      match rank {
        case ByField =>
          var v :| Asks(row.variant, "field", v) && v != "*" && "field" in d.values && d.values["field"] == v;
          AsksMeans(row, d, "field", v);
        case ByValue =>
          var k, v :| Asks(row.variant, k, v) && k != "field" && v != "*" && k in d.values && d.values[k] == v;
          AsksMeans(row, d, k, v);
        case ByAny =>
          var k :| Asks(row.variant, k, "*") && k in d.values;
          AsksMeans(row, d, k, "*");
        case Plain => var key, value := VariantIs(row.variant);
      }
    }
  }

  ghost predicate GroupFits(g: Group, lang: string, code: string) {
    g.lang == lang && if g.prefix then StartsWith(code, g.key) else g.key == code
  }

  lemma {:induction false} FitsIff(row: Stored, lang: string, code: string)
    ensures GroupFits(Read(row).group, lang, code) <==> row.lang == lang && SpeaksFor(row, code)
  {
  }

  // ---------------------------------------------------------------- the best row that speaks

  ghost function RankValue(rank: Rank): nat {
    match rank
    case ByField => 3
    case ByValue => 2
    case ByAny => 1
    case Plain => 0
  }

  /** An exact code before any prefix, a longer prefix before a shorter one. */
  ghost function Closeness(g: Group, code: string): nat { if g.prefix then |g.key| else |code| + 1 }

  /** A row of the list speaks, and nothing that speaks is ahead of it. */
  ghost predicate BestIn(rows: seq<Row>, lang: string, code: string, d: Detail, x: Row, rank: Rank) {
    && x in rows && GroupFits(x.group, lang, code) && Speaks(x, rank, d)
    && forall y, r | y in rows && GroupFits(y.group, lang, code) && Speaks(y, r, d) ::
         NotAhead(y.group, r, x.group, rank, code)
  }

  ghost predicate NotAhead(g: Group, r: Rank, h: Group, s: Rank, code: string) {
    || Closeness(g, code) < Closeness(h, code)
    || (Closeness(g, code) == Closeness(h, code) && RankValue(r) <= RankValue(s))
  }

  ghost predicate Nobody(rows: seq<Row>, lang: string, code: string, d: Detail) {
    forall y, r | y in rows && GroupFits(y.group, lang, code) :: !Speaks(y, r, d)
  }

  lemma {:induction false} MembersIn(rows: seq<Row>, g: Group, r: Row)
    ensures r in Members(rows, g) <==> r in rows && r.group == g
  {
    if rows != [] {
      var n := |rows| - 1;
      MembersIn(rows[..n], g, r);
      assert rows == rows[..n] + [rows[n]];
    }
  }

  lemma {:induction false} FirstFinds(rows: seq<Row>, rank: Rank, d: Detail)
    ensures var f := First(rows, rank, d);
      if f.Some? then f.value in rows && Speaks(f.value, rank, d) else forall y | y in rows :: !Speaks(y, rank, d)
  {
    if rows != [] {
      FirstFinds(rows[1..], rank, d);
      assert rows == [rows[0]] + rows[1..];
    }
  }

  lemma {:induction false} LastFinds(rows: seq<Row>, rank: Rank, d: Detail)
    ensures var f := Last(rows, rank, d);
      if f.Some? then f.value in rows && Speaks(f.value, rank, d) else forall y | y in rows :: !Speaks(y, rank, d)
  {
    if rows != [] {
      var n := |rows| - 1;
      LastFinds(rows[..n], rank, d);
      assert rows == rows[..n] + [rows[n]];
    }
  }

  ghost predicate HighestRank(rows: seq<Row>, d: Detail, x: Row, rank: Rank) {
    && x in rows && Speaks(x, rank, d)
    && forall y, r | y in rows && Speaks(y, r, d) :: RankValue(r) <= RankValue(rank)
  }

  lemma {:induction false} BestOfFinds(rows: seq<Row>, d: Detail)
    ensures var f := BestOf(rows, d);
      if f.Some? then exists rank :: HighestRank(rows, d, f.value, rank) else forall y, r | y in rows :: !Speaks(y, r, d)
  {
    FirstFinds(rows, ByField, d);
    FirstFinds(rows, ByValue, d);
    FirstFinds(rows, ByAny, d);
    LastFinds(rows, Plain, d);
    var f := BestOf(rows, d);
    if f.Some? {
      var rank := if First(rows, ByField, d).Some? then ByField else if First(rows, ByValue, d).Some? then ByValue
                  else if First(rows, ByAny, d).Some? then ByAny else Plain;
      assert HighestRank(rows, d, f.value, rank);
    }
  }

  /** What one group has to say. */
  lemma {:induction false} GroupFinds(rows: seq<Row>, g: Group, d: Detail)
    ensures var f := BestOf(Members(rows, g), d);
      if f.Some?
      then f.value in rows && f.value.group == g && exists rank :: GroupBest(rows, g, d, f.value, rank)
      else forall y, r | y in rows && y.group == g :: !Speaks(y, r, d)
  {
    BestOfFinds(Members(rows, g), d);
    forall y ensures y in Members(rows, g) <==> y in rows && y.group == g { MembersIn(rows, g, y); }
    var f := BestOf(Members(rows, g), d);
    if f.Some? {
      var rank :| HighestRank(Members(rows, g), d, f.value, rank);
      assert GroupBest(rows, g, d, f.value, rank);
    }
  }

  ghost predicate GroupBest(rows: seq<Row>, g: Group, d: Detail, x: Row, rank: Rank) {
    && Speaks(x, rank, d)
    && forall y, r | y in rows && y.group == g && Speaks(y, r, d) :: RankValue(r) <= RankValue(rank)
  }

  /** The prefixes of at most n characters. */
  ghost predicate UpTo(g: Group, lang: string, code: string, n: int) {
    g.prefix && GroupFits(g, lang, code) && |g.key| <= n
  }

  ghost predicate BestUpTo(rows: seq<Row>, lang: string, code: string, n: int, d: Detail, x: Row, rank: Rank) {
    && x in rows && UpTo(x.group, lang, code, n) && Speaks(x, rank, d)
    && forall y, r | y in rows && UpTo(y.group, lang, code, n) && Speaks(y, r, d) :: NotAhead(y.group, r, x.group, rank, code)
  }

  lemma {:induction false} LongestFirstFound(rows: seq<Row>, lang: string, code: string, n: nat, d: Detail, x: Row, rank: Rank)
    requires n <= |code| && x in rows && x.group == Group(lang, true, code[..n]) && GroupBest(rows, x.group, d, x, rank)
    ensures BestUpTo(rows, lang, code, n, d, x, rank)
  {
    forall y, r | y in rows && UpTo(y.group, lang, code, n) && Speaks(y, r, d) ensures NotAhead(y.group, r, x.group, rank, code) {
      if |y.group.key| == n { assert y.group == x.group; }
    }
  }

  lemma {:induction false} ShorterFound(rows: seq<Row>, lang: string, code: string, n: nat, d: Detail)
    requires n <= |code| && forall y, r | y in rows && y.group == Group(lang, true, code[..n]) :: !Speaks(y, r, d)
    ensures forall x, rank :: BestUpTo(rows, lang, code, n - 1, d, x, rank) ==> BestUpTo(rows, lang, code, n, d, x, rank)
    ensures (forall y, r | y in rows && UpTo(y.group, lang, code, n - 1) :: !Speaks(y, r, d))
      ==> forall y, r | y in rows && UpTo(y.group, lang, code, n) :: !Speaks(y, r, d)
  {
    var g := Group(lang, true, code[..n]);
    forall y | y in rows && UpTo(y.group, lang, code, n) && y.group != g ensures UpTo(y.group, lang, code, n - 1) {
      assert |y.group.key| == n ==> y.group.key == g.key;
    }
  }

  lemma {:induction false} PrefixesFind(rows: seq<Row>, lang: string, code: string, n: int, d: Detail)
    requires -1 <= n <= |code|
    ensures var f := SearchPrefixes(rows, lang, code, n, d);
      if f.Some? then exists rank :: BestUpTo(rows, lang, code, n, d, f.value, rank)
      else forall y, r | y in rows && UpTo(y.group, lang, code, n) :: !Speaks(y, r, d)
    decreases n + 1
  {
    if n >= 0 {
      var g := Group(lang, true, code[..n]);
      GroupFinds(rows, g, d);
      PrefixesFind(rows, lang, code, n - 1, d);
      var f := BestOf(Members(rows, g), d);
      if f.Some? {
        var rank :| GroupBest(rows, g, d, f.value, rank);
        LongestFirstFound(rows, lang, code, n, d, f.value, rank);
      } else {
        ShorterFound(rows, lang, code, n, d);
        var rest := SearchPrefixes(rows, lang, code, n - 1, d);
        if rest.Some? {
          var rank :| BestUpTo(rows, lang, code, n - 1, d, rest.value, rank);
          assert BestUpTo(rows, lang, code, n, d, rest.value, rank);
        }
      }
    }
  }

  lemma {:induction false} ExactFound(rows: seq<Row>, lang: string, code: string, d: Detail, x: Row, rank: Rank)
    requires x in rows && x.group == Group(lang, false, code) && GroupBest(rows, x.group, d, x, rank)
    ensures BestIn(rows, lang, code, d, x, rank)
  {
    forall y, r | y in rows && GroupFits(y.group, lang, code) && Speaks(y, r, d) ensures NotAhead(y.group, r, x.group, rank, code) {
      if !y.group.prefix { assert y.group == x.group; }
    }
  }

  lemma {:induction false} PrefixFound(rows: seq<Row>, lang: string, code: string, d: Detail)
    requires forall y, r | y in rows && y.group == Group(lang, false, code) :: !Speaks(y, r, d)
    ensures forall x, rank :: BestUpTo(rows, lang, code, |code|, d, x, rank) ==> BestIn(rows, lang, code, d, x, rank)
    ensures (forall y, r | y in rows && UpTo(y.group, lang, code, |code|) :: !Speaks(y, r, d)) ==> Nobody(rows, lang, code, d)
  {
    var g := Group(lang, false, code);
    forall y | y in rows && GroupFits(y.group, lang, code) && y.group != g ensures UpTo(y.group, lang, code, |code|) {
      assert y.group == Group(y.group.lang, y.group.prefix, y.group.key);
    }
  }

  /** The best row of a language, or nobody in it speaks. */
  lemma {:induction false} LangFinds(rows: seq<Row>, lang: string, code: string, d: Detail)
    ensures var f := SearchLang(rows, lang, code, d);
      if f.Some? then exists rank :: BestIn(rows, lang, code, d, f.value, rank) else Nobody(rows, lang, code, d)
  {
    var g := Group(lang, false, code);
    GroupFinds(rows, g, d);
    PrefixesFind(rows, lang, code, |code|, d);
    var f := BestOf(Members(rows, g), d);
    if f.Some? {
      var rank :| GroupBest(rows, g, d, f.value, rank);
      ExactFound(rows, lang, code, d, f.value, rank);
    } else {
      PrefixFound(rows, lang, code, d);
    }
  }

  // ---------------------------------------------------------------- the search, by the rows as they are stored

  /** Row i of the catalogue speaks about the error in a language. */
  ghost predicate SpeaksUp(rows: seq<Stored>, i: nat, lang: string, code: string, rank: Rank, d: Detail) {
    i < |rows| && rows[i].lang == lang && SpeaksFor(rows[i], code) && SpeaksAs(rows[i], rank, d)
  }

  /** How close a stored code is: the code itself beats any star, and a longer text before the star a shorter one. */
  ghost function CodeValue(row: Stored, code: string): nat {
    var n := |row.code|;
    if n > 0 && row.code[n - 1] == '*' then n - 1 else |code| + 1
  }

  /** Of all the rows that speak in the language, none is closer, and none as close is of a better rank. */
  ghost predicate SpeaksBest(rows: seq<Stored>, i: nat, lang: string, code: string, rank: Rank, d: Detail) {
    && SpeaksUp(rows, i, lang, code, rank, d)
    && forall j: nat, r | SpeaksUp(rows, j, lang, code, r, d) ::
         || CodeValue(rows[j], code) < CodeValue(rows[i], code)
         || (CodeValue(rows[j], code) == CodeValue(rows[i], code) && RankValue(r) <= RankValue(rank))
  }

  ghost predicate NobodySpeaks(rows: seq<Stored>, lang: string, code: string, d: Detail) {
    forall j: nat, r :: !SpeaksUp(rows, j, lang, code, r, d)
  }

  lemma {:induction false} RowSpeaks(rows: seq<Stored>, j: nat, lang: string, code: string, r: Rank, d: Detail)
    requires j < |rows|
    ensures SpeaksUp(rows, j, lang, code, r, d) <==> GroupFits(Read(rows[j]).group, lang, code) && Speaks(Read(rows[j]), r, d)
    ensures CodeValue(rows[j], code) == Closeness(Read(rows[j]).group, code)
    ensures ReadAll(rows)[j] == Read(rows[j]) && Read(rows[j]) in ReadAll(rows)
  {
    SpeaksIff(rows[j], r, d);
    FitsIff(rows[j], lang, code);
    assert ReadAll(rows)[j] == Read(rows[j]);
  }

  lemma {:induction false} BestIsStored(rows: seq<Stored>, lang: string, code: string, d: Detail, x: Row, rank: Rank)
    requires BestIn(ReadAll(rows), lang, code, d, x, rank)
    ensures exists i: nat :: SpeaksBest(rows, i, lang, code, rank, d) && x.words == rows[i].words
  {
    var i: nat :| i < |rows| && ReadAll(rows)[i] == x;
    RowSpeaks(rows, i, lang, code, rank, d);
    forall j: nat, r | SpeaksUp(rows, j, lang, code, r, d)
      ensures || CodeValue(rows[j], code) < CodeValue(rows[i], code)
              || (CodeValue(rows[j], code) == CodeValue(rows[i], code) && RankValue(r) <= RankValue(rank))
    {
      RowSpeaks(rows, j, lang, code, r, d);
    }
    assert SpeaksBest(rows, i, lang, code, rank, d);
  }

  lemma {:induction false} NobodyStored(rows: seq<Stored>, lang: string, code: string, d: Detail)
    requires Nobody(ReadAll(rows), lang, code, d)
    ensures NobodySpeaks(rows, lang, code, d)
  {
    forall j: nat, r ensures !SpeaksUp(rows, j, lang, code, r, d) {
      if j < |rows| { RowSpeaks(rows, j, lang, code, r, d); }
    }
  }

  lemma {:induction false} LangMeans(rows: seq<Stored>, lang: string, code: string, d: Detail)
    ensures var f := SearchLang(ReadAll(rows), lang, code, d);
      if f.Some? then exists i: nat, rank :: SpeaksBest(rows, i, lang, code, rank, d) && f.value.words == rows[i].words
      else NobodySpeaks(rows, lang, code, d)
  {
    LangFinds(ReadAll(rows), lang, code, d);
    var f := SearchLang(ReadAll(rows), lang, code, d);
    if f.Some? {
      var rank :| BestIn(ReadAll(rows), lang, code, d, f.value, rank);
      BestIsStored(rows, lang, code, d, f.value, rank);
    } else {
      NobodyStored(rows, lang, code, d);
    }
  }

  /** The words found are those of a best row in a language. */
  ghost predicate FoundIn(rows: seq<Stored>, lang: string, code: string, d: Detail, words: Wording) {
    exists i: nat, rank :: SpeaksBest(rows, i, lang, code, rank, d) && words == rows[i].words
  }

  /**
   What a look-up finds, by the rows as they are stored: the words of a row that speaks best in the language asked
   for; if none speaks there, of one that speaks best in English; and none if nobody does, or the error has no code.
   */
  lemma {:induction false} SearchMeaning(rows: seq<Stored>, d: Detail, lang: string)
    ensures var f := Search(ReadAll(rows), d, lang);
      if d.code.None? || d.code.value == "" then f == None
      else
        var code := d.code.value;
        if f.Some?
        then FoundIn(rows, lang, code, d, f.value) || (NobodySpeaks(rows, lang, code, d) && FoundIn(rows, "en", code, d, f.value))
        else NobodySpeaks(rows, lang, code, d) && NobodySpeaks(rows, "en", code, d)
  {
    if d.code.Some? && d.code.value != "" {
      LangMeans(rows, lang, d.code.value, d);
      LangMeans(rows, "en", d.code.value, d);
    }
  }

  /** A catalogue of one plain row: with p + "*" it has words for every code that p begins, otherwise for its own alone. */
  lemma {:induction false} OneRowSpeaks(row: Stored, d: Detail)
    requires row.variant == "" && d.code.Some? && d.code.value != ""
    ensures Search(ReadAll([row]), d, row.lang) == if SpeaksFor(row, d.code.value) then Some(row.words) else None
  {
    var rows, code := [row], d.code.value;
    SearchMeaning(rows, d, row.lang);
    assert SpeaksUp(rows, 0, row.lang, code, Plain, d) <==> SpeaksFor(row, code);
    if !SpeaksFor(row, code) {
      assert NobodySpeaks(rows, row.lang, code, d) && NobodySpeaks(rows, "en", code, d);
    }
  }

  /** Two rows of one code and language that speak alike: the first is taken, but of two plain ones the second. */
  lemma {:induction false} TwoRowsSpeak(a: Stored, b: Stored, rank: Rank, d: Detail)
    requires a.code == b.code && a.lang == b.lang && d.code == Some(a.code) && a.code != "" && a.code[|a.code| - 1] != '*'
    requires SpeaksAs(a, rank, d) && SpeaksAs(b, rank, d)
    requires rank.ByField? || forall r :: r != rank ==> !SpeaksAs(a, r, d) && !SpeaksAs(b, r, d)
    ensures Search(ReadAll([a, b]), d, a.lang) == Some(if rank.Plain? then b.words else a.words)
  {
    forall r ensures Speaks(Read(a), r, d) == SpeaksAs(a, r, d) && Speaks(Read(b), r, d) == SpeaksAs(b, r, d) {
      SpeaksIff(a, r, d);
      SpeaksIff(b, r, d);
    }
    TwoFound(Read(a), Read(b), rank, d);
    TwoSearched(a, b, d);
  }

  lemma {:induction false} TwoSearched(a: Stored, b: Stored, d: Detail)
    requires a.code == b.code && a.lang == b.lang && d.code == Some(a.code) && a.code != "" && a.code[|a.code| - 1] != '*'
    requires BestOf([Read(a), Read(b)], d).Some?
    ensures Search(ReadAll([a, b]), d, a.lang) == Some(BestOf([Read(a), Read(b)], d).value.words)
  {
    var rows := ReadAll([a, b]);
    assert rows == [Read(a), Read(b)];
    TwoMembers(Read(a), Read(b), Group(a.lang, false, a.code));
  }

  lemma {:induction false} TwoMembers(x: Row, y: Row, g: Group)
    requires x.group == g && y.group == g
    ensures Members([x, y], g) == [x, y]
  {
    var both, one := [x, y], [x];
    assert both[..1] == one && one[..0] == [] && Members(one, g) == one;
  }

  lemma {:induction false} TwoFound(x: Row, y: Row, rank: Rank, d: Detail)
    requires Speaks(x, rank, d) && Speaks(y, rank, d)
    requires rank.ByField? || forall r :: r != rank ==> !Speaks(x, r, d) && !Speaks(y, r, d)
    ensures BestOf([x, y], d) == Some(if rank.Plain? then y else x)
  {
    assert [x, y][1..] == [y];
    if !rank.ByField? {
      assert !Speaks(x, if rank.ByAny? then ByField else ByAny, d);
      FirstFinds([x, y], ByField, d);
      FirstFinds([x, y], ByValue, d);
      FirstFinds([x, y], ByAny, d);
    }
  }

  // ---------------------------------------------------------------- building the registry

  method BuildIndex(rows: seq<Stored>) returns (exact: ExactIndex, prefixes: PrefixIndex)
    ensures ExactHolds(exact, ReadAll(rows)) && PrefixesHold(prefixes, ReadAll(rows))
  {
    exact, prefixes := map[], map[];
    ghost var all := ReadAll(rows);
    for i := 0 to |rows|
      invariant ExactHolds(exact, all[..i]) && PrefixesHold(prefixes, all[..i])
    {
      assert all[..i + 1] == all[..i] + [all[i]];
      var row := Read(rows[i]);
      ExactAdds(exact, all[..i], row);
      PrefixesAdd(prefixes, all[..i], row);
      if row.group.prefix {
        prefixes := PutTable(prefixes, row);
      } else {
        exact := PutExact(exact, row);
      }
    }
    assert all[..|rows|] == all;
  }

  class Registry {
    var exact: ExactIndex
    var prefixes: PrefixIndex
    var version: Option<string>
    ghost var catalogue: seq<Row>

    ghost predicate Valid()
      reads this
    {
      && ExactHolds(exact, catalogue) && PrefixesHold(prefixes, catalogue)
      && forall lang :: LongestFirst(TableAt(prefixes, lang).order)
    }

    constructor ()
      ensures Valid() && catalogue == [] && version == None
    {
      exact, prefixes, version, catalogue := map[], map[], None, [];
    }

    method SetErrorWording(rows: seq<Stored>, newVersion: Option<string>)
      modifies this
      ensures Valid() && catalogue == ReadAll(rows) && version == newVersion
    {
      var nextExact, nextPrefixes := BuildIndex(rows);
      exact := nextExact;
      prefixes := map lang | lang in nextPrefixes :: nextPrefixes[lang].(order := Sort(nextPrefixes[lang].order));
      version := newVersion;
      catalogue := ReadAll(rows);
      forall lang ensures Holds(TableAt(prefixes, lang), catalogue, lang) && LongestFirst(TableAt(prefixes, lang).order) {
        SortedHolds(TableAt(nextPrefixes, lang), catalogue, lang);
      }
    }

    /** The exact code before any prefix, the longest prefix first, and English when the language has none. */
    method WordingFor(d: Detail, lang: string) returns (r: Option<Wording>)
      requires Valid()
      ensures r == Search(catalogue, d, lang)
    {
      if d.code.None? || d.code.value == "" {
        return None;
      }
      var row := WordingIn(lang, d.code.value, d);
      if row.None? && lang != DEFAULT_LANG {
        row := WordingIn(DEFAULT_LANG, d.code.value, d);
      }
      return Words(row);
    }

    method WordingIn(lang: string, code: string, d: Detail) returns (r: Option<Row>)
      requires Valid()
      ensures r == SearchLang(catalogue, lang, code, d)
    {
      r := Pick(EntryAt(exact, lang, code), d);
      PickIsBest(Members(catalogue, Group(lang, false, code)), d);
      if r.Some? {
        return;
      }
      var t := TableAt(prefixes, lang);
      assert Holds(t, catalogue, lang);
      ScanIsSearch(t, 0, catalogue, lang, code, |code|, d);
      r := FirstPrefix(t, code, d);
    }
  }

  method FirstPrefix(t: Table, code: string, d: Detail) returns (r: Option<Row>)
    ensures r == Scan(t, 0, code, d)
  {
    for i := 0 to |t.order|
      invariant Scan(t, 0, code, d) == Scan(t, i, code, d)
    {
      if StartsWith(code, t.order[i]) {
        r := Pick(EntryIn(t, t.order[i]), d);
        if r.Some? {
          return;
        }
      }
    }
    r := None;
  }
}
