/** The two tables the branch finder ships with, written as in
    js/postallookup.js, and the lookups on them worth spelling out.

    A map display, like a JavaScript object literal, keeps the last value
    given for a repeated key. Each table is written as the union of
    consecutive blocks of its literal (by initial letter for the names, by
    the literal's own district comments for the prefixes); `+` on maps also
    lets the later block win, so the union is the literal. */
module PostalTables {
  import opened Options
  import opened PostalLookup

  const NamesFromAToD: NameTable := map[
    "AB" := "Albion",
    "AC" := "Albert Campbell",
    "AD" := "Alderwood",
    "AG" := "Agincourt",
    "AH" := "Armour Heights",
    "AN" := "Annette Street",
    "AP" := "Amesbury Park",
    "BB" := "Beaches",
    "BC" := "Black Creek",
    "BD" := "Bendale",
    "BF" := "Barbara Frum",
    "BG" := "Bloor/Gladstone",
    "BK" := "Brookbanks",
    "BR" := "Bridlewood",
    "BRW" := "Brentwood",
    "BUR" := "Burrows Hall",
    "CC" := "Centennial",
    "CE" := "Cedarbrae",
    "CF" := "Cliffcrest",
    "CHL" := "City Hall",
    "CL" := "College/Shaw",
    "DA" := "Danforth/Coxwell",
    "DGH" := "Daniel G. Hill",
    "DE" := "Deer Park",
    "DM" := "Don Mills",
    "DO" := "Downsview",
    "DP" := "Davenport",
    "DR" := "Dawes Road",
    "DSC" := "Dufferin/St. Clair"
  ]

  const NamesFromEToL: NameTable := map[
    "EB" := "Elmbrook Park",
    "EG" := "Evelyn Gregory",
    "EHN" := "Ethennonnhawahstihnen'",
    "EN" := "Eatonville",
    "ES" := "Eglinton Square",
    "FH" := "Forest Hill",
    "FO" := "Fort York",
    "FP" := "Flemingdon Park",
    "FV" := "Fairview",
    "GA" := "Gerrard/Ashdale",
    "GHP" := "Goldhawk Park",
    "GW" := "Guildwood",
    "HB" := "Humber Bay",
    "HC" := "Highland Creek",
    "HI" := "Hillcrest",
    "HP" := "High Park",
    "HS" := "Humber Summit",
    "HW" := "Humberwood",
    "JO" := "Jones",
    "JS" := "Jane/Sheppard",
    "JT" := "Junction Triangle",
    "KE" := "Kennedy/Eglinton",
    "LB" := "Long Branch",
    "LE" := "Leaside",
    "LHS" := "Lillian H. Smith",
    "LO" := "Locke"
  ]

  const NamesFromMToR: NameTable := map[
    "MA" := "Maryvale",
    "MAL" := "Malvern",
    "MAS" := "Maria A. Shchuka",
    "MC" := "Mimico Centennial",
    "MD" := "Mount Dennis",
    "MO" := "Morningside",
    "MP" := "McGregor Park",
    "MS" := "Main Street",
    "MTP" := "Mount Pleasant",
    "ND" := "Northern District",
    "NE" := "Northern Elms",
    "NT" := "New Toronto",
    "NYC" := "North York Central Library",
    "OV" := "Oakwood Village Library & Arts Centre",
    "PA" := "Palmerston",
    "PD" := "Pape/Danforth",
    "PK" := "Parkdale",
    "PLS" := "Parliament Street",
    "PU" := "Port Union",
    "PV" := "Pleasant View",
    "QS" := "Queen/Saulter",
    "RX" := "Rexdale",
    "RI" := "Richview",
    "RN" := "Runnymede",
    "RV" := "Riverdale"
  ]

  const NamesFromSToY: NameTable := map[
    "SA" := "Sanderson",
    "SCC" := "Scarborough Civic Centre",
    "SCS" := "St. Clair/Silverthorn",
    "SD" := "Sanderson",
    "SJ" := "St. James Town",
    "SL" := "St. Lawrence",
    "SM" := "Swansea Memorial",
    "SP" := "Spadina Road",
    "ST" := "Steeles",
    "SWS" := "S. Walter Stewart",
    "TH" := "Thorncliffe",
    "TM" := "Taylor Memorial",
    "TR" := "Todmorden Room",
    "TRL" := "Toronto Reference Library",
    "VV" := "Victoria Village",
    "WE" := "Weston",
    "WS" := "Woodside Square",
    "WV" := "Woodview Park",
    "WY" := "Wychwood",
    "YO" := "Yorkville",
    "YW" := "York Woods"
  ]

  /** `branchMappings` */
  const BranchNames: NameTable :=
    NamesFromAToD + NamesFromEToL + NamesFromMToR + NamesFromSToY

  const ScarboroughM1: PostalTable := map[
    "M1B" := ["BUR", "MAL"],
    "M1C" := ["HC", "PU"],
    "M1E" := ["GW", "MO"],
    "M1J" := ["BD"],
    "M1K" := ["AC", "KE"],
    "M1L" := ["ES"],
    "M1M" := ["CF"],
    "M1N" := ["TM"],
    "M1P" := ["MP", "SCC"],
    "M1R" := ["MA"],
    "M1T" := ["AG"],
    "M1V" := ["WS", "GHP"],
    "M1W" := ["BR", "ST"]
  ]

  const NorthYorkM2: PostalTable := map[
    "M2H" := ["HI"],
    "M2J" := ["FV", "PV"],
    "M2K" := ["EHN"],
    "M2N" := ["NYC"],
    "M2R" := ["CC"]
  ]

  const NorthYorkM3: PostalTable := map[
    "M3A" := ["BK"],
    "M3C" := ["DM", "FP"],
    "M3L" := ["BC", "JS"],
    "M3M" := ["DO"],
    "M3N" := ["YW"]
  ]

  const EastYorkCentralM4: PostalTable := map[
    "M4A" := ["VV"],
    "M4B" := ["DR"],
    "M4C" := ["DA"],
    "M4E" := ["MS", "BB"],
    "M4G" := ["LE"],
    "M4H" := ["TH"],
    "M4J" := ["SWS"],
    "M4K" := ["PD", "RV", "TR"],
    "M4L" := ["BB", "GA"],
    "M4M" := ["JO", "QS"],
    "M4N" := ["LO"],
    "M4S" := ["MTP"],
    "M4T" := ["DE"],
    "M4W" := ["TRL", "YO"],
    "M4X" := ["SJT"],
    "M4Y" := ["SJT"],
    "M4R" := ["ND"]
  ]

  const DowntownM5: PostalTable := map[
    "M5A" := ["PLS", "SL"],
    "M5H" := ["CHL"],
    "M5M" := ["AH"],
    "M5N" := ["FH"],
    "M5R" := ["SP", "WY"],
    "M5T" := ["LHS", "SD"],
    "M5V" := ["FO"]
  ]

  const YorkWestTorontoM6: PostalTable := map[
    "M6A" := ["BF"],
    "M6E" := ["MAS", "OV"],
    "M6G" := ["CL", "DP", "PA"],
    "M6H" := ["BG", "DSC"],
    "M6K" := ["PK"],
    "M6L" := ["AP"],
    "M6M" := ["MD", "EG"],
    "M6N" := ["SCS"],
    "M6P" := ["AN", "JT"],
    "M6R" := ["HP"],
    "M6S" := ["RN", "SM"]
  ]

  const EtobicokeM8: PostalTable := map[
    "M8V" := ["MC", "NT"],
    "M8W" := ["LB", "HB"],
    "M8X" := ["BRW"],
    "M8Y" := ["HB"],
    "M8W" := ["AD"]
  ]

  const EtobicokeNorthYorkM9: PostalTable := map[
    "M9B" := ["EN", "RI"],
    "M9C" := ["EB"],
    "M9L" := ["HS"],
    "M9M" := ["WV"],
    "M9N" := ["WE"],
    "M9P" := ["RI"],
    "M9W" := ["HW", "NE", "RX"]
  ]

  /** `postalToBranch` */
  const PostalIndex: PostalTable :=
    ScarboroughM1
    + NorthYorkM2
    + NorthYorkM3
    + EastYorkCentralM4
    + DowntownM5
    + YorkWestTorontoM6
    + EtobicokeM8
    + EtobicokeNorthYorkM9

  // Each block of the name table holds codes of its initials only, and each
  // district of the prefix table holds prefixes of its district only.

  lemma InitialsFromAToD()
    ensures forall k :: k in NamesFromAToD ==> |k| > 0 && 'A' <= k[0] <= 'D'
  {
  }

  lemma InitialsFromEToL()
    ensures forall k :: k in NamesFromEToL ==> |k| > 0 && 'E' <= k[0] <= 'L'
  {
  }

  lemma InitialsFromMToR()
    ensures forall k :: k in NamesFromMToR ==> |k| > 0 && 'M' <= k[0] <= 'R'
  {
  }

  lemma InitialsFromSToY()
    ensures forall k :: k in NamesFromSToY ==> |k| > 0 && 'S' <= k[0] <= 'Y'
  {
  }

  lemma PrefixesOfScarboroughM1()
    ensures forall k :: k in ScarboroughM1 ==> |k| == 3 && k[0] == 'M' && k[1] == '1'
  {
  }

  lemma PrefixesOfNorthYorkM2()
    ensures forall k :: k in NorthYorkM2 ==> |k| == 3 && k[0] == 'M' && k[1] == '2'
  {
  }

  lemma PrefixesOfNorthYorkM3()
    ensures forall k :: k in NorthYorkM3 ==> |k| == 3 && k[0] == 'M' && k[1] == '3'
  {
  }

  lemma PrefixesOfEastYorkCentralM4()
    ensures forall k :: k in EastYorkCentralM4 ==> |k| == 3 && k[0] == 'M' && k[1] == '4'
  {
  }

  lemma PrefixesOfDowntownM5()
    ensures forall k :: k in DowntownM5 ==> |k| == 3 && k[0] == 'M' && k[1] == '5'
  {
  }

  lemma PrefixesOfYorkWestTorontoM6()
    ensures forall k :: k in YorkWestTorontoM6 ==> |k| == 3 && k[0] == 'M' && k[1] == '6'
  {
  }

  lemma PrefixesOfEtobicokeM8()
    ensures forall k :: k in EtobicokeM8 ==> |k| == 3 && k[0] == 'M' && k[1] == '8'
  {
  }

  lemma PrefixesOfEtobicokeNorthYorkM9()
    ensures forall k :: k in EtobicokeNorthYorkM9 ==> |k| == 3 && k[0] == 'M' && k[1] == '9'
  {
  }


  /** Within the Etobicoke district the later of the two "M8W" entries wins. */
  lemma DuplicatePrefixInDistrict()
    ensures "M8W" in EtobicokeM8 && EtobicokeM8["M8W"] == ["AD"]
  {
  }

  /** ... and no later district overrides it. */
  lemma DuplicatePrefixResolvesToLater()
    ensures "M8W" in PostalIndex && PostalIndex["M8W"] == ["AD"]
  {
    DuplicatePrefixInDistrict();
    OutsideLaterDistricts("M8W", '8');
  }

  lemma OutsideLaterDistricts(k: string, district: char)
    requires |k| == 3 && k[0] == 'M' && '1' <= district < '9' && k[1] == district
    ensures k !in EtobicokeNorthYorkM9
    ensures district < '8' ==> k !in EtobicokeM8
    ensures district < '6' ==> k !in YorkWestTorontoM6
    ensures district < '5' ==> k !in DowntownM5
  {
    PrefixesOfDowntownM5();
    PrefixesOfYorkWestTorontoM6();
    PrefixesOfEtobicokeM8();
    PrefixesOfEtobicokeNorthYorkM9();
  }

  lemma AlderwoodName()
    ensures "AD" in BranchNames && BranchNames["AD"] == "Alderwood"
  {
    AlderwoodInFirstBlock();
    OutsideLaterBlocks("AD");
  }

  lemma AlderwoodInFirstBlock()
    ensures "AD" in NamesFromAToD && NamesFromAToD["AD"] == "Alderwood"
  {
  }

  lemma OutsideLaterBlocks(k: string)
    requires |k| > 0
    ensures k[0] < 'E' ==> k !in NamesFromEToL
    ensures k[0] < 'M' ==> k !in NamesFromMToR
    ensures k[0] < 'S' ==> k !in NamesFromSToY
  {
    InitialsFromEToL();
    InitialsFromMToR();
    InitialsFromSToY();
  }

  /** A lower-case postal code in "M8W" finds Alderwood only. */
  lemma DuplicatePrefixCodes()
    ensures BranchCodesFromPostal(PostalIndex, Some("m8w 2A1")) == ["AD"]
  {
    DuplicatePrefixResolvesToLater();
    CodesOfInput(PostalIndex, "m8w 2A1", 'M', '8', 'W');
  }

  lemma DuplicatePrefixNames()
    ensures BranchesByPostal(BranchNames, PostalIndex, Some("m8w 2A1")) == ["Alderwood"]
  {
    DuplicatePrefixCodes();
    AlderwoodName();
    NamesOfSingleCode(BranchNames, PostalIndex, Some("m8w 2A1"), "AD");
  }

  /** "SJT" is listed for two prefixes but has no name. */
  lemma SjtHasNoName()
    ensures "SJT" !in BranchNames
  {
    SjtNotInFirstBlocks();
    SjtNotInLastBlock();
  }

  lemma SjtNotInFirstBlocks()
    ensures "SJT" !in NamesFromAToD && "SJT" !in NamesFromEToL && "SJT" !in NamesFromMToR
  {
    OutsideEarlierBlocks("SJT");
  }

  lemma OutsideEarlierBlocks(k: string)
    requires |k| > 0 && 'S' <= k[0]
    ensures k !in NamesFromAToD && k !in NamesFromEToL && k !in NamesFromMToR
  {
    InitialsFromAToD();
    InitialsFromEToL();
    InitialsFromMToR();
  }

  lemma SjtNotInLastBlock()
    ensures "SJT" !in NamesFromSToY
  {
  }

  lemma M4xPrefix()
    ensures "M4X" in PostalIndex && PostalIndex["M4X"] == ["SJT"]
  {
    M4xInDistrict();
    OutsideLaterDistricts("M4X", '4');
  }

  lemma M4xInDistrict()
    ensures "M4X" in EastYorkCentralM4 && EastYorkCentralM4["M4X"] == ["SJT"]
  {
  }

  /** Prefix "M4X" lists only the code "SJT" ... */
  lemma NamelessCodeFound()
    ensures BranchCodesFromPostal(PostalIndex, Some("M4X")) == ["SJT"]
  {
    M4xPrefix();
    CodesOfInput(PostalIndex, "M4X", 'M', '4', 'X');
  }

  /** ... which the name lookup drops, ... */
  lemma NamelessCodeDropped()
    ensures BranchesByPostal(BranchNames, PostalIndex, Some("M4X")) == []
  {
    NamelessCodeFound();
    SjtHasNoName();
    NamesOfSingleCode(BranchNames, PostalIndex, Some("M4X"), "SJT");
  }

  /** ... while the search shows a link labelled with the bare code. */
  lemma NamelessCodeLinked()
    ensures Search(BranchNames, PostalIndex, "M4X") ==
            SearchOutcome(BranchLinks(LinksHeading, [Link("SJT", BranchPage + "SJT")]), ["SJT"])
  {
    SearchOfClean(BranchNames, PostalIndex, "M4X");
    NamelessCodeFound();
    SjtHasNoName();
    ShowOneNamelessCode(BranchNames, "SJT");
  }

  lemma M5vPrefix()
    ensures "M5V" in PostalIndex && PostalIndex["M5V"] == ["FO"]
  {
    M5vInDistrict();
    OutsideLaterDistricts("M5V", '5');
  }

  lemma M5vInDistrict()
    ensures "M5V" in DowntownM5 && DowntownM5["M5V"] == ["FO"]
  {
  }

  /** A lower-case full postal code finds the branch listed under its
      upper-case prefix. */
  lemma CaseAndSuffixDoNotMatter()
    ensures BranchCodesFromPostal(PostalIndex, Some("m5v 1a1")) == ["FO"]
  {
    M5vPrefix();
    CodesOfInput(PostalIndex, "m5v 1a1", 'M', '5', 'V');
  }

  /** No district holds a prefix starting "M7". */
  lemma NoM7Prefixes(k: string)
    requires |k| == 3 && k[1] == '7'
    ensures k !in PostalIndex
  {
    PrefixesOfScarboroughM1();
    PrefixesOfNorthYorkM2();
    PrefixesOfNorthYorkM3();
    PrefixesOfEastYorkCentralM4();
    PrefixesOfDowntownM5();
    PrefixesOfYorkWestTorontoM6();
    PrefixesOfEtobicokeM8();
    PrefixesOfEtobicokeNorthYorkM9();
  }

  /** A prefix outside the table ends in the no-branch message ... */
  lemma UnknownPrefixShowsMessage()
    ensures Search(BranchNames, PostalIndex, "M7A 0A1") == SearchOutcome(Message(NoBranchFound), [])
  {
    UnknownPrefixFindsNothing();
    SearchM7a(BranchNames, PostalIndex);
  }

  lemma SearchM7a(names: NameTable, postal: PostalTable)
    requires BranchCodesFromPostal(postal, Some("M7A 0A1")) == []
    ensures Search(names, postal, "M7A 0A1") == SearchOutcome(Message(NoBranchFound), [])
  {
    SearchWithoutCodes(names, postal, "M7A 0A1");
  }

  lemma UnknownPrefixFindsNothing()
    ensures BranchCodesFromPostal(PostalIndex, Some("M7A 0A1")) == []
  {
    NoM7Prefixes("M7A");
    KeyOfInput("M7A 0A1", 'M', '7', 'A');
  }

  /** ... and so does an input too short to hold a prefix once trimmed,
      even if it was padded to four characters. */
  lemma ShortInputShowsMessage()
    ensures Search(BranchNames, PostalIndex, " M5 ") == SearchOutcome(Message(NoBranchFound), [])
  {
    SearchPaddedM5(BranchNames, PostalIndex);
  }

  lemma SearchPaddedM5(names: NameTable, postal: PostalTable)
    ensures Search(names, postal, " M5 ") == SearchOutcome(Message(NoBranchFound), [])
  {
    assert " M5 " == " " + "M5" + " ";
    SearchIgnoresPadding(names, postal, " ", "M5", " ");
  }
}
