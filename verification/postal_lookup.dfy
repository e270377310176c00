/** The postal-code search of the branch finder: from a postal code to the
    branches listed for its three-character prefix, in table order, and the
    result the search button shows. Both tables are parameters; the
    concrete ones are in module PostalTables. */
module PostalLookup {
  import opened Options
  import opened Text
  import opened Seqs

  /** Branch code to branch name (`branchMappings`). */
  type NameTable = map<string, string>

  /** Three-character postal prefix to branch codes (`postalToBranch`). */
  type PostalTable = map<string, seq<string>>

  /** The key both lookups use: the first three characters of the input,
      upper-cased; none when the input is absent or shorter than three. */
  function LookupKey(input: Option<string>): (key: Option<string>)
    ensures key.Some? <==> input.Some? && |input.value| >= 3
    ensures key.Some? ==>
              && |key.value| == 3
              && forall i :: 0 <= i < 3 ==>
                   !IsAsciiLower(key.value[i]) && SameIgnoringCase(key.value[i], input.value[i])
  {
    if input.None? || |input.value| < 3 then None
    else Some(UpperAscii(Take(input.value, 3)))
  }

  /** `getBranchCodesFromPostal`: the table's list for the input's prefix,
      or nothing. */
  function BranchCodesFromPostal(postal: PostalTable, input: Option<string>): (codes: seq<string>)
    ensures input.None? || |input.value| < 3 ==> codes == []
    ensures LookupKey(input).Some? && LookupKey(input).value in postal ==>
              codes == postal[LookupKey(input).value]
    ensures codes != [] ==> LookupKey(input).Some? && LookupKey(input).value in postal
  {
    if input.None? || |input.value| < 3 then []
    else
      var prefix := UpperAscii(Take(input.value, 3));
      if prefix in postal then postal[prefix] else []
  }

  /** `codes.map(code => names[code]).filter(Boolean)`: the names of the codes
      that have a non-empty name, in the codes' order. */
  function NamesOf(names: NameTable, codes: seq<string>): (r: seq<string>)
    ensures |r| <= |codes|
    ensures forall n :: n in r ==>
              n != "" && exists i :: 0 <= i < |codes| && codes[i] in names && names[codes[i]] == n
    ensures forall i :: 0 <= i < |codes| && codes[i] in names && names[codes[i]] != "" ==> names[codes[i]] in r
    ensures (forall i :: 0 <= i < |codes| ==> codes[i] in names && names[codes[i]] != "") ==> |r| == |codes|
    decreases |codes|
  {
    if |codes| == 0 then []
    else
      var c := codes[0];
      var rest := NamesOf(names, codes[1..]);
      assert forall i :: 0 < i < |codes| ==> codes[i] == codes[1..][i - 1];
      if c in names && names[c] != "" then [names[c]] + rest else rest
  }

  /** Naming distributes over concatenation, so names keep the codes' order. */
  lemma {:induction false} NamesOfAppend(names: NameTable, a: seq<string>, b: seq<string>)
    ensures NamesOf(names, a + b) == NamesOf(names, a) + NamesOf(names, b)
    decreases |a|
  {
    if |a| == 0 {
      assert a + b == b;
    } else {
      assert (a + b)[1..] == a[1..] + b;
      NamesOfAppend(names, a[1..], b);
    }
  }

  /** `getBranchesByPostal`: the names of the branches serving the input's
      prefix; a code with no name is dropped. */
  function BranchesByPostal(names: NameTable, postal: PostalTable, input: Option<string>): (r: seq<string>)
    ensures r == NamesOf(names, BranchCodesFromPostal(postal, input))
    ensures |r| <= |BranchCodesFromPostal(postal, input)|
  {
    if input.None? || |input.value| < 3 then []
    else
      var prefix := UpperAscii(Take(input.value, 3));
      if prefix !in postal then [] else NamesOf(names, postal[prefix])
  }

  /** Two inputs have the same lookup key exactly when their first three
      characters agree up to ASCII case. */
  lemma KeyIgnoresCaseOnly(a: string, b: string)
    requires |a| >= 3 && |b| >= 3
    ensures LookupKey(Some(a)) == LookupKey(Some(b)) <==>
            forall i :: 0 <= i < 3 ==> SameIgnoringCase(a[i], b[i])
  {
    var ka := LookupKey(Some(a)).value;
    var kb := LookupKey(Some(b)).value;
    forall i | 0 <= i < 3
      ensures ka[i] == AsciiUpper(a[i]) && kb[i] == AsciiUpper(b[i])
      ensures ka[i] == kb[i] <==> SameIgnoringCase(a[i], b[i])
    {
      UpperIdentifiesCase(a[i], b[i]);
    }
    if forall i :: 0 <= i < 3 ==> SameIgnoringCase(a[i], b[i]) {
      assert ka == kb;
    }
  }

  /** Both lookups depend on the input only through its lookup key. */
  lemma LookupDependsOnlyOnKey(names: NameTable, postal: PostalTable, a: Option<string>, b: Option<string>)
    requires LookupKey(a) == LookupKey(b)
    ensures BranchCodesFromPostal(postal, a) == BranchCodesFromPostal(postal, b)
    ensures BranchesByPostal(names, postal, a) == BranchesByPostal(names, postal, b)
  {
  }

  /** Lower-case input finds what upper-case input finds. */
  lemma LookupIgnoresCase(names: NameTable, postal: PostalTable, a: string, b: string)
    requires |a| >= 3 && |b| >= 3
    requires forall i :: 0 <= i < 3 ==> SameIgnoringCase(a[i], b[i])
    ensures BranchCodesFromPostal(postal, Some(a)) == BranchCodesFromPostal(postal, Some(b))
    ensures BranchesByPostal(names, postal, Some(a)) == BranchesByPostal(names, postal, Some(b))
  {
    KeyIgnoresCaseOnly(a, b);
    LookupDependsOnlyOnKey(names, postal, Some(a), Some(b));
  }

  /** Everything after the third character is ignored. */
  lemma LookupIgnoresSuffix(names: NameTable, postal: PostalTable, s: string, rest: string)
    requires |s| >= 3
    ensures BranchCodesFromPostal(postal, Some(s + rest)) == BranchCodesFromPostal(postal, Some(s))
    ensures BranchesByPostal(names, postal, Some(s + rest)) == BranchesByPostal(names, postal, Some(s))
  {
    assert (s + rest)[..3] == s[..3];
    LookupDependsOnlyOnKey(names, postal, Some(s + rest), Some(s));
  }

  /** The lookup key of an input, one upper-cased character at a time. */
  lemma KeyOfInput(s: string, a: char, b: char, c: char)
    requires |s| >= 3
    requires AsciiUpper(s[0]) == a && AsciiUpper(s[1]) == b && AsciiUpper(s[2]) == c
    ensures LookupKey(Some(s)) == Some([a, b, c])
  {
    var key := UpperAscii(Take(s, 3));
    assert LookupKey(Some(s)) == Some(key);
    assert Take(s, 3) == s[..3];
    assert |key| == 3;
    assert key[0] == a;
    assert key[1] == b && key[2] == c;
    assert key == [a, b, c];
  }

  /** An input whose upper-cased first three characters are a key of the
      table finds that key's list. */
  lemma CodesOfInput(postal: PostalTable, s: string, a: char, b: char, c: char)
    requires |s| >= 3
    requires AsciiUpper(s[0]) == a && AsciiUpper(s[1]) == b && AsciiUpper(s[2]) == c
    requires [a, b, c] in postal
    ensures BranchCodesFromPostal(postal, Some(s)) == postal[[a, b, c]]
  {
    KeyOfInput(s, a, b, c);
  }

  /** A found key gives the table's list and the names of its codes. */
  lemma LookupFound(names: NameTable, postal: PostalTable, input: Option<string>, key: string)
    requires LookupKey(input) == Some(key) && key in postal
    ensures BranchCodesFromPostal(postal, input) == postal[key]
    ensures BranchesByPostal(names, postal, input) == NamesOf(names, postal[key])
  {
  }

  /** When the postal table yields a single code, the names list holds that
      code's name, or nothing when it has none. */
  lemma NamesOfSingleCode(names: NameTable, postal: PostalTable, input: Option<string>, c: string)
    requires BranchCodesFromPostal(postal, input) == [c]
    ensures BranchesByPostal(names, postal, input) == if c in names && names[c] != "" then [names[c]] else []
  {
    NamesOfOne(names, c);
  }

  lemma NamesOfOne(names: NameTable, c: string)
    ensures NamesOf(names, [c]) == if c in names && names[c] != "" then [names[c]] else []
  {
  }

  /** One result link of the search. */
  datatype Link = Link(text: string, href: string)

  /** What the result area shows after a search. */
  datatype SearchDisplay =
    | Message(text: string)
    | BranchLinks(heading: string, links: seq<Link>)

  /** The shown result, and the codes handed to the map highlighter. */
  datatype SearchOutcome = SearchOutcome(display: SearchDisplay, highlighted: seq<string>)

  const NoBranchFound: string := "No branch found for this postal code."
  const LinksHeading: string := "Closest Branches: "
  const BranchPage: string := "branch.html?branch="

  /** `branchMappings[code] || code` */
  function LinkText(names: NameTable, code: string): string {
    if code in names && names[code] != "" then names[code] else code
  }

  function BranchLink(names: NameTable, code: string): Link {
    Link(LinkText(names, code), BranchPage + code)
  }

  /** What the result area shows for a list of branch codes: the no-branch
      message for none, otherwise one link per code, in order, each to the
      branch's page and labelled with its name or, failing that, its code. */
  function ShowCodes(names: NameTable, codes: seq<string>): (o: SearchOutcome)
    ensures o.display.Message? <==> codes == []
    ensures codes == [] ==> o == SearchOutcome(Message(NoBranchFound), [])
    ensures codes != [] ==> o.highlighted == codes && o.display.heading == LinksHeading
    ensures o.display.BranchLinks? ==>
              && |o.display.links| == |codes|
              && forall i :: 0 <= i < |codes| ==>
                   && o.display.links[i].href == BranchPage + codes[i]
                   && (codes[i] in names && names[codes[i]] != "" ==> o.display.links[i].text == names[codes[i]])
                   && (codes[i] !in names || names[codes[i]] == "" ==> o.display.links[i].text == codes[i])
  {
    if |codes| == 0 then
      SearchOutcome(Message(NoBranchFound), [])
    else
      var links := seq(|codes|, i requires 0 <= i < |codes| => BranchLink(names, codes[i]));
      SearchOutcome(BranchLinks(LinksHeading, links), codes)
  }

  /** The search button's click handler, without the DOM: trim the input
      field's value, look its codes up and show them. */
  function Search(names: NameTable, postal: PostalTable, inputValue: string): (o: SearchOutcome)
    ensures |inputValue| < 3 ==> o == SearchOutcome(Message(NoBranchFound), [])
    ensures o.display.BranchLinks? <==> o.highlighted != []
    ensures o.display.BranchLinks? ==>
              && |o.display.links| == |o.highlighted|
              && (forall i :: 0 <= i < |o.highlighted| ==> o.display.links[i].href == BranchPage + o.highlighted[i])
  {
    ShowCodes(names, BranchCodesFromPostal(postal, Some(Trim(inputValue))))
  }

  /** An input without whitespace at either end is looked up as typed. */
  lemma SearchOfClean(names: NameTable, postal: PostalTable, s: string)
    requires s == [] || (!IsWhitespace(s[0]) && !IsWhitespace(s[|s| - 1]))
    ensures Search(names, postal, s) == ShowCodes(names, BranchCodesFromPostal(postal, Some(s)))
  {
    TrimOfClean(s);
  }

  /** An input without surrounding whitespace whose prefix lists no codes
      shows the no-branch message. */
  lemma SearchWithoutCodes(names: NameTable, postal: PostalTable, s: string)
    requires s == [] || (!IsWhitespace(s[0]) && !IsWhitespace(s[|s| - 1]))
    requires BranchCodesFromPostal(postal, Some(s)) == []
    ensures Search(names, postal, s) == SearchOutcome(Message(NoBranchFound), [])
  {
    SearchOfClean(names, postal, s);
  }

  /** Whitespace typed around the postal code does not change the result. */
  lemma SearchIgnoresPadding(names: NameTable, postal: PostalTable, a: string, s: string, b: string)
    requires AllWhitespace(a) && AllWhitespace(b)
    ensures Search(names, postal, a + s + b) == Search(names, postal, s)
  {
    TrimPadded(a, s, b);
  }

  /** Codes of which none has a name yield no names at all. */
  lemma {:induction false} NamelessCodesHaveNoNames(names: NameTable, codes: seq<string>)
    requires forall i :: 0 <= i < |codes| ==> codes[i] !in names
    ensures NamesOf(names, codes) == []
    decreases |codes|
  {
    if |codes| > 0 {
      NamelessCodesHaveNoNames(names, codes[1..]);
    }
  }

  /** A prefix whose every code is nameless still produces links, showing
      the raw codes, while the name lookup comes back empty. */
  lemma NamelessCodesStillLinked(names: NameTable, postal: PostalTable, input: Option<string>)
    requires var codes := BranchCodesFromPostal(postal, input);
             codes != [] && forall i :: 0 <= i < |codes| ==> codes[i] !in names
    ensures BranchesByPostal(names, postal, input) == []
    ensures var o := ShowCodes(names, BranchCodesFromPostal(postal, input));
            && o.display.BranchLinks?
            && forall i :: 0 <= i < |o.display.links| ==> o.display.links[i].text == o.highlighted[i]
  {
    var codes := BranchCodesFromPostal(postal, input);
    NamelessCodesHaveNoNames(names, codes);
  }

  /** A single nameless code is shown as a single link labelled with the
      code itself. */
  lemma ShowOneNamelessCode(names: NameTable, c: string)
    requires c !in names
    ensures ShowCodes(names, [c]) == SearchOutcome(BranchLinks(LinksHeading, [Link(c, BranchPage + c)]), [c])
  {
  }
}
