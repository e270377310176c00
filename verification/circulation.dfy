/** The circulation page's data handling (js/main.js): the records it keeps
    on load, the cardholder types offered in the drop-down, and the records
    a selection shows. Fields are strings as read from the file, except the
    circulation count, which the page converts to a number. */
module Circulation {
  import opened Seqs

  /** A row of the circulation-by-cardholder-type file. */
  datatype Record = Record(branchCode: string, year: string, cardholderType: string, circulation: int)

  /** The drop-down value that selects every record. */
  const AllTypes := "All"

  /** `d.Year === "2022" || d.Year === "2023"`. */
  predicate InShownYears(d: Record) {
    d.year == "2022" || d.year == "2023"
  }

  /** `allData`: the records of 2022 and 2023, in file order. */
  function Retain(data: seq<Record>): (kept: seq<Record>)
    ensures forall i :: 0 <= i < |kept| ==> kept[i].year == "2022" || kept[i].year == "2023"
    ensures forall d :: d in data && (d.year == "2022" || d.year == "2023") ==> d in kept
  {
    Filter(data, InShownYears)
  }

  /** Retaining keeps each 2022 or 2023 record as often as it occurs and in
      its order, and drops every other record. */
  lemma RetainKeepsShownYears(data: seq<Record>, d: Record)
    ensures multiset(Retain(data))[d] == if d.year == "2022" || d.year == "2023" then multiset(data)[d] else 0
    ensures SubsequenceOf(Retain(data), data)
  {
    FilterCounts(data, InShownYears, d);
    FilterKeepsOrder(data, InShownYears);
  }

  function TypeOf(d: Record): string {
    d.cardholderType
  }

  /** `Array.from(new Set(allData.map(d => d.CardholderType)))`: the
      cardholder types of the retained records, each once, ordered by first
      occurrence. */
  function CardholderTypes(kept: seq<Record>): (types: seq<string>)
    ensures NoDuplicates(types)
    ensures forall t :: t in types <==> t in Map(kept, TypeOf)
    ensures forall t :: t in types <==> exists i :: 0 <= i < |kept| && kept[i].cardholderType == t
    ensures forall i, j :: 0 <= i < j < |types| ==>
              FirstIndex(Map(kept, TypeOf), types[i]) < FirstIndex(Map(kept, TypeOf), types[j])
  {
    var all := Map(kept, TypeOf);
    assert forall t :: t in all <==> exists i :: 0 <= i < |kept| && kept[i].cardholderType == t by {
      forall t | t in all
        ensures exists i :: 0 <= i < |kept| && kept[i].cardholderType == t
      {
        var i :| 0 <= i < |all| && all[i] == t;
        assert kept[i].cardholderType == t;
      }
    }
    Distinct(all)
  }

  /** `selectedType === "All" ? allData : allData.filter(d =>
      d.CardholderType === selectedType)`. */
  function Select(kept: seq<Record>, selected: string): (shown: seq<Record>)
    ensures selected == AllTypes ==> shown == kept
    ensures selected != AllTypes ==>
              forall d :: d in shown <==> d in kept && d.cardholderType == selected
    ensures |shown| <= |kept|
  {
    if selected == AllTypes then kept
    else Filter(kept, (d: Record) => d.cardholderType == selected)
  }

  /** A selection shows records in the retained order, each as often as it
      is retained. */
  lemma SelectKeepsOrderAndCounts(kept: seq<Record>, selected: string, d: Record)
    ensures SubsequenceOf(Select(kept, selected), kept)
    ensures multiset(Select(kept, selected))[d] ==
            if selected == AllTypes || d.cardholderType == selected then multiset(kept)[d] else 0
  {
    if selected == AllTypes {
      SubsequenceOfSelf(kept);
    } else {
      var p := (r: Record) => r.cardholderType == selected;
      FilterKeepsOrder(kept, p);
      FilterCounts(kept, p, d);
    }
  }

  /** Selecting the same type again shows the same records. */
  lemma SelectIdempotent(kept: seq<Record>, selected: string)
    ensures Select(Select(kept, selected), selected) == Select(kept, selected)
  {
    if selected != AllTypes {
      FilterIdempotent(kept, (d: Record) => d.cardholderType == selected);
    }
  }

  /** Every offered type other than "All" shows at least one record. */
  lemma OfferedTypesShowRecords(kept: seq<Record>, t: string)
    requires t in CardholderTypes(kept) && t != AllTypes
    ensures Select(kept, t) != []
  {
    var i :| 0 <= i < |kept| && kept[i].cardholderType == t;
    assert kept[i] in Select(kept, t);
  }

  /** Every retained record's type is offered, and selecting it shows the
      record. A type that is literally "All" cannot be singled out: selecting
      it shows every record. */
  lemma RecordShownUnderOwnType(kept: seq<Record>, d: Record)
    requires d in kept
    ensures d.cardholderType in CardholderTypes(kept)
    ensures d in Select(kept, d.cardholderType)
  {
  }

  /** A type that no retained record has shows nothing. */
  lemma UnknownTypeShowsNothing(kept: seq<Record>, t: string)
    requires t != AllTypes && t !in CardholderTypes(kept)
    ensures Select(kept, t) == []
  {
  }
}
