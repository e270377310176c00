/** The branch page's two lookup tables, built in one pass over the rows of
    the branch information file (js/branch.js), and the branch name the page
    shows for the branch code it was opened with. */
module BranchTables {
  import opened Options
  import opened Text
  import opened Seqs

  /** A row of the branch information file. A column the row lacks reads as
      absent (`undefined`). */
  datatype InfoRow = InfoRow(branchCode: Option<string>, branchName: Option<string>, postalCode: Option<string>)

  /** `branchMappings` (code to name) and `postalToBranch` (postal prefix to
      codes). A prefix list can hold an absent code: a row with a postal code
      but no branch code contributes `undefined`. */
  datatype Tables = Tables(names: map<string, string>, postal: map<string, seq<Option<string>>>)

  /** `field?.trim()`: absent stays absent. */
  function TrimField(field: Option<string>): Option<string> {
    match field
    case None => None
    case Some(s) => Some(Trim(s))
  }

  /** JavaScript truthiness of an optional string. */
  predicate Truthy(v: Option<string>) {
    v.Some? && v.value != ""
  }

  /** A row with each field trimmed (`const code = d.BranchCode?.trim()` and
      so on): all the rest of the loop body looks at. */
  datatype Entry = Entry(code: Option<string>, name: Option<string>, postal: Option<string>)

  function Clean(row: InfoRow): (e: Entry)
    ensures e.code.Some? <==> row.branchCode.Some?
    ensures e.name.Some? <==> row.branchName.Some?
    ensures e.postal.Some? <==> row.postalCode.Some?
  {
    Entry(TrimField(row.branchCode), TrimField(row.branchName), TrimField(row.postalCode))
  }

  /** A present field is its trimmed value with whitespace around it, and
      the trimmed value has none at either end. */
  ghost predicate TrimmedFrom(field: Option<string>, trimmed: Option<string>) {
    (field.Some? <==> trimmed.Some?) &&
    (field.Some? ==>
       && (trimmed.value == [] || (!IsWhitespace(trimmed.value[0]) && !IsWhitespace(trimmed.value[|trimmed.value| - 1])))
       && exists a, b :: AllWhitespace(a) && AllWhitespace(b) && field.value == a + trimmed.value + b)
  }

  /** Each field of a cleaned row is the row's field trimmed: only
      surrounding whitespace is removed, and none is left at either end. */
  lemma CleanTrimsFields(row: InfoRow)
    ensures TrimmedFrom(row.branchCode, Clean(row).code)
    ensures TrimmedFrom(row.branchName, Clean(row).name)
    ensures TrimmedFrom(row.postalCode, Clean(row).postal)
  {
    TrimFieldTrims(row.branchCode);
    TrimFieldTrims(row.branchName);
    TrimFieldTrims(row.postalCode);
  }

  lemma TrimFieldTrims(field: Option<string>)
    ensures TrimmedFrom(field, TrimField(field))
  {
    if field.Some? {
      TrimRemovesOnlyWhitespace(field.value);
    }
  }

  /** The entry names the branch `code`: its code is `code`, and both code
      and name are non-empty. */
  predicate NamesCode(e: Entry, code: string) {
    e.code == Some(code) && code != "" && Truthy(e.name)
  }

  /** The prefix an entry is grouped under: the first three characters of
      its postal code, with the case kept; none without a postal code. */
  function PrefixOf(e: Entry): Option<string> {
    if Truthy(e.postal) then Some(Take(e.postal.value, 3)) else None
  }

  /** The body of the `forEach` over the rows. Only the name of the entry's
      own code and the list of its own prefix can change. */
  function AddEntry(t: Tables, e: Entry): (u: Tables)
    ensures forall c :: !NamesCode(e, c) ==>
              (c in u.names <==> c in t.names) && (c in t.names ==> u.names[c] == t.names[c])
    ensures forall p :: PrefixOf(e) != Some(p) ==>
              (p in u.postal <==> p in t.postal) && (p in t.postal ==> u.postal[p] == t.postal[p])
  {
    var names := if Truthy(e.code) && Truthy(e.name) then t.names[e.code.value := e.name.value] else t.names;
    var postal :=
      if PrefixOf(e).Some? then
        var prefix := PrefixOf(e).value;
        var codes := if prefix in t.postal then t.postal[prefix] else [];
        t.postal[prefix := AddIfAbsent(codes, e.code)]
      else t.postal;
    Tables(names, postal)
  }

  /** The tables after every entry has been added, first entry first. Every
      name is non-empty; every prefix is one to three characters long and
      lists at least one code, none twice. */
  function Build(es: seq<Entry>): (t: Tables)
    ensures forall c :: c in t.names ==> t.names[c] != ""
    ensures forall p :: p in t.postal ==> 0 < |p| <= 3 && t.postal[p] != [] && NoDuplicates(t.postal[p])
    decreases |es|
  {
    if |es| == 0 then Tables(map[], map[])
    else AddEntry(Build(es[..|es| - 1]), es[|es| - 1])
  }

  /** The tables the page builds from the rows of the file. */
  function BuildTables(rows: seq<InfoRow>): (t: Tables)
    ensures forall c :: c in t.names ==> t.names[c] != ""
    ensures forall p :: p in t.postal ==> 0 < |p| <= 3 && t.postal[p] != [] && NoDuplicates(t.postal[p])
  {
    Build(Map(rows, Clean))
  }

  /** The name given to `code` by the last entry that names it. */
  function LastName(es: seq<Entry>, code: string): Option<string>
    decreases |es|
  {
    if |es| == 0 then None
    else if NamesCode(es[|es| - 1], code) then es[|es| - 1].name
    else LastName(es[..|es| - 1], code)
  }

  /** The codes of the entries grouped under prefix `p`, in file order,
      repeats included. */
  function CodesWithPrefix(es: seq<Entry>, p: string): seq<Option<string>>
    decreases |es|
  {
    if |es| == 0 then []
    else
      var n := |es| - 1;
      CodesWithPrefix(es[..n], p) + (if PrefixOf(es[n]) == Some(p) then [es[n].code] else [])
  }

  /** The name table maps a code exactly when some entry names it, and then
      to the name the last such entry gives. */
  lemma {:induction false} NameTableIsLastName(es: seq<Entry>, c: string)
    ensures c in Build(es).names <==> LastName(es, c).Some?
    ensures c in Build(es).names ==> Some(Build(es).names[c]) == LastName(es, c)
    decreases |es|
  {
    if |es| > 0 {
      NameTableIsLastName(es[..|es| - 1], c);
    }
  }

  /** `LastName` finds an entry naming the code with no later entry naming
      it. */
  lemma {:induction false} LastNameHasLastEntry(es: seq<Entry>, c: string)
    requires LastName(es, c).Some?
    ensures exists i :: 0 <= i < |es| && NamesCode(es[i], c) && es[i].name == LastName(es, c)
                        && forall j :: i < j < |es| ==> !NamesCode(es[j], c)
    decreases |es|
  {
    var n := |es| - 1;
    if !NamesCode(es[n], c) {
      var init := es[..n];
      LastNameHasLastEntry(init, c);
      var i :| 0 <= i < |init| && NamesCode(init[i], c) && init[i].name == LastName(init, c)
               && forall j :: i < j < |init| ==> !NamesCode(init[j], c);
      assert es[i] == init[i];
      forall j | i < j < |es|
        ensures !NamesCode(es[j], c)
      {
        if j < n {
          assert es[j] == init[j];
        }
      }
    }
  }

  /** Conversely, the name of an entry naming the code with no later entry
      naming it is the one `LastName` finds. */
  lemma {:induction false} LastEntryGivesLastName(es: seq<Entry>, c: string, i: nat)
    requires i < |es| && NamesCode(es[i], c)
    requires forall j :: i < j < |es| ==> !NamesCode(es[j], c)
    ensures LastName(es, c) == es[i].name
    decreases |es|
  {
    var n := |es| - 1;
    if i < n {
      var init := es[..n];
      assert init[i] == es[i];
      assert forall j :: i < j < |init| ==> init[j] == es[j];
      LastEntryGivesLastName(init, c, i);
    }
  }

  /** No entry names the code exactly when `LastName` finds nothing. */
  lemma {:induction false} LastNameAbsent(es: seq<Entry>, c: string)
    ensures LastName(es, c).None? <==> forall i :: 0 <= i < |es| ==> !NamesCode(es[i], c)
    decreases |es|
  {
    if |es| > 0 {
      var n := |es| - 1;
      var init := es[..n];
      LastNameAbsent(init, c);
      assert forall i :: 0 <= i < n ==> es[i] == init[i];
    }
  }

  /** The same list as `xs.filter(...).map(e => e.code)` would give. */
  lemma {:induction false} CodesWithPrefixIsFilterMap(es: seq<Entry>, p: string)
    ensures CodesWithPrefix(es, p) == Map(Filter(es, (e: Entry) => PrefixOf(e) == Some(p)), (e: Entry) => e.code)
    decreases |es|
  {
    if |es| > 0 {
      var n := |es| - 1;
      var f := (e: Entry) => PrefixOf(e) == Some(p);
      var g := (e: Entry) => e.code;
      CodesWithPrefixIsFilterMap(es[..n], p);
      assert es == es[..n] + [es[n]];
      FilterMapSnoc(es[..n], es[n], f, g);
    }
  }

  /** A code is listed for `p` exactly when an entry grouped under `p`
      carries it. */
  lemma {:induction false} CodesWithPrefixMembers(es: seq<Entry>, p: string, c: Option<string>)
    ensures c in CodesWithPrefix(es, p) <==>
              exists i :: 0 <= i < |es| && PrefixOf(es[i]) == Some(p) && es[i].code == c
    decreases |es|
  {
    if |es| > 0 {
      var n := |es| - 1;
      var init := es[..n];
      CodesWithPrefixMembers(init, p, c);
      if c in CodesWithPrefix(init, p) {
        var i :| 0 <= i < |init| && PrefixOf(init[i]) == Some(p) && init[i].code == c;
        assert es[i] == init[i];
      }
      if exists i :: 0 <= i < |es| && PrefixOf(es[i]) == Some(p) && es[i].code == c {
        var i :| 0 <= i < |es| && PrefixOf(es[i]) == Some(p) && es[i].code == c;
        if i < n {
          assert init[i] == es[i];
        }
      }
    }
  }

  /** A prefix is in the prefix table exactly when some entry is grouped
      under it, and its list is the codes of those entries, each once, in the
      order they first occur. */
  lemma {:induction false} PrefixTableIsDistinctCodes(es: seq<Entry>, p: string)
    ensures p in Build(es).postal <==> CodesWithPrefix(es, p) != []
    ensures p in Build(es).postal ==> Build(es).postal[p] == Distinct(CodesWithPrefix(es, p))
    decreases |es|
  {
    if |es| > 0 {
      var n := |es| - 1;
      var init := es[..n];
      PrefixTableIsDistinctCodes(init, p);
      BuildSnoc(es);
      AddEntryKeepsDistinct(Build(init), es[n], p, CodesWithPrefix(init, p));
    }
  }

  /** One step of the fold: if `p`'s list is the de-duplication of `before`,
      after adding `e` it is the de-duplication of `before` extended by
      `e`'s code when `e` is grouped under `p`. */
  lemma AddEntryKeepsDistinct(t: Tables, e: Entry, p: string, before: seq<Option<string>>)
    requires p in t.postal <==> before != []
    requires p in t.postal ==> t.postal[p] == Distinct(before)
    ensures var after := before + (if PrefixOf(e) == Some(p) then [e.code] else []);
            var u := AddEntry(t, e);
            && (p in u.postal <==> after != [])
            && (p in u.postal ==> u.postal[p] == Distinct(after))
  {
    if PrefixOf(e) == Some(p) {
      AddEntryAtPrefix(t, e, p);
      DistinctSnoc(before, e.code);
    } else {
      assert before + [] == before;
    }
  }

  lemma BuildSnoc(es: seq<Entry>)
    requires |es| > 0
    ensures Build(es) == AddEntry(Build(es[..|es| - 1]), es[|es| - 1])
  {
  }

  lemma AddEntryAtPrefix(t: Tables, e: Entry, p: string)
    requires PrefixOf(e) == Some(p)
    ensures p in AddEntry(t, e).postal
    ensures AddEntry(t, e).postal[p] == AddIfAbsent(if p in t.postal then t.postal[p] else [], e.code)
  {
  }

  /** Which codes a prefix lists: exactly the codes of the entries grouped
      under it, an absent code included. */
  lemma PrefixListMembers(es: seq<Entry>, p: string, c: Option<string>)
    requires p in Build(es).postal
    ensures c in Build(es).postal[p] <==>
              exists i :: 0 <= i < |es| && PrefixOf(es[i]) == Some(p) && es[i].code == c
  {
    PrefixTableIsDistinctCodes(es, p);
    CodesWithPrefixMembers(es, p, c);
  }

  /** The prefix table's keys are exactly the prefixes of the entries. */
  lemma PrefixKeys(es: seq<Entry>, p: string)
    ensures p in Build(es).postal <==> exists i :: 0 <= i < |es| && PrefixOf(es[i]) == Some(p)
  {
    PrefixTableIsDistinctCodes(es, p);
    var codes := CodesWithPrefix(es, p);
    if codes != [] {
      CodesWithPrefixMembers(es, p, codes[0]);
    }
    if exists i :: 0 <= i < |es| && PrefixOf(es[i]) == Some(p) {
      var i :| 0 <= i < |es| && PrefixOf(es[i]) == Some(p);
      CodesWithPrefixMembers(es, p, es[i].code);
    }
  }

  /** A code is in the built name table exactly when some row, once
      trimmed, has that code and a non-empty name. */
  lemma BuildTablesNames(rows: seq<InfoRow>, c: string)
    ensures c in BuildTables(rows).names <==> exists i :: 0 <= i < |rows| && NamesCode(Clean(rows[i]), c)
  {
    var es := Map(rows, Clean);
    NameTableIsLastName(es, c);
    LastNameAbsent(es, c);
    assert forall i :: 0 <= i < |rows| ==> es[i] == Clean(rows[i]);
  }

  /** A prefix is in the built prefix table exactly when some row, once
      trimmed, has a non-empty postal code starting with it. */
  lemma BuildTablesPrefixes(rows: seq<InfoRow>, p: string)
    ensures p in BuildTables(rows).postal <==> exists i :: 0 <= i < |rows| && PrefixOf(Clean(rows[i])) == Some(p)
  {
    var es := Map(rows, Clean);
    PrefixKeys(es, p);
    assert forall i :: 0 <= i < |rows| ==> es[i] == Clean(rows[i]);
  }

  /** `branchMappings[selectedBranchCode] || selectedBranchCode`. A missing
      `branch` parameter is `null`, which indexes the property "null". */
  function DisplayName(names: map<string, string>, selected: Option<string>): (shown: Option<string>)
    ensures selected.Some? && selected.value in names && names[selected.value] != "" ==>
              shown == Some(names[selected.value])
    ensures selected.Some? && selected.value !in names ==> shown == selected
    ensures shown != selected ==> shown.Some? && shown.value in names.Values
  {
    var key := selected.GetOr("null");
    if key in names && names[key] != "" then Some(names[key]) else selected
  }

  /** On the built table, the page shows the name the last row naming the
      selected code gives, or else the code itself. */
  lemma DisplayNameOfRows(rows: seq<InfoRow>, code: string)
    ensures var es := Map(rows, Clean);
            DisplayName(BuildTables(rows).names, Some(code)) ==
              if LastName(es, code).Some? then LastName(es, code) else Some(code)
  {
    NameTableIsLastName(Map(rows, Clean), code);
  }

  /** Without a `branch` parameter the page shows the name of a branch whose
      code is the text "null", if a row names one, and otherwise nothing. */
  lemma DisplayNameWithoutSelection(rows: seq<InfoRow>)
    ensures DisplayName(BuildTables(rows).names, None) == LastName(Map(rows, Clean), "null")
  {
    NameTableIsLastName(Map(rows, Clean), "null");
  }

  /** Two rows without a branch code under one prefix list the absent code
      once; a differently cased prefix is a key of its own. */
  lemma AbsentCodeListedOnce()
    ensures var es := [Entry(None, None, Some("M5V 1A1")), Entry(None, Some("Fort York"), Some("M5V 2B2")),
                       Entry(Some("FO"), Some("Fort York"), Some("m5v 3C3"))];
            && "M5V" in Build(es).postal && Build(es).postal["M5V"] == [None]
            && "m5v" in Build(es).postal && Build(es).postal["m5v"] == [Some("FO")]
  {
    var es := [Entry(None, None, Some("M5V 1A1")), Entry(None, Some("Fort York"), Some("M5V 2B2")),
               Entry(Some("FO"), Some("Fort York"), Some("m5v 3C3"))];
    PrefixOfPostal(es[0], 'M', '5', 'V');
    PrefixOfPostal(es[1], 'M', '5', 'V');
    PrefixOfPostal(es[2], 'm', '5', 'v');
    GroupsOfThree(es[0], es[1], es[2], "M5V", "m5v");
  }

  /** Three entries, the first two under prefix `p` and the third under `q`. */
  lemma GroupsOfThree(a: Entry, b: Entry, c: Entry, p: string, q: string)
    requires PrefixOf(a) == Some(p) && PrefixOf(b) == Some(p) && PrefixOf(c) == Some(q) && p != q
    ensures p in Build([a, b, c]).postal && Build([a, b, c]).postal[p] == AddIfAbsent([a.code], b.code)
    ensures q in Build([a, b, c]).postal && Build([a, b, c]).postal[q] == [c.code]
  {
    var t0 := Tables(map[], map[]);
    var t1 := AddEntry(t0, a);
    var t2 := AddEntry(t1, b);
    BuildOfThree(a, b, c);
    AddEntryAtPrefix(t0, a, p);
    AddEntryAtPrefix(t1, b, p);
    AddEntryAtPrefix(t2, c, q);
  }

  lemma BuildOfThree(a: Entry, b: Entry, c: Entry)
    ensures Build([a, b, c]) == AddEntry(AddEntry(AddEntry(Tables(map[], map[]), a), b), c)
  {
    assert [a, b, c][..2] == [a, b];
    assert [a, b][..1] == [a];
    assert [a][..0] == [];
    BuildSnoc([a]);
    BuildSnoc([a, b]);
    BuildSnoc([a, b, c]);
  }

  lemma PrefixOfPostal(e: Entry, a: char, b: char, c: char)
    requires e.postal.Some? && |e.postal.value| >= 3
    requires e.postal.value[0] == a && e.postal.value[1] == b && e.postal.value[2] == c
    ensures PrefixOf(e) == Some([a, b, c])
  {
    var s := e.postal.value;
    assert s != [];
    assert Take(s, 3) == s[..3];
    assert s[..3] == [a, b, c];
  }
}
