/** The gift list's derived data (src/components/gifts/GiftList.tsx): the
    recipient filter's options, and the displayed gifts — filtered by a
    case-insensitive search term and a selected recipient, then sorted by
    purchase date or recipient name, ascending or descending. The locale
    collation of `localeCompare` is a parameter. */
module GiftList {
  import opened Certificates
  import opened Strings
  import Seqs

  /** `gifts.map(gift => gift.recipientName)`. */
  function RecipientNames(gifts: seq<Certificate>): (names: seq<string>)
    ensures |names| == |gifts|
    ensures forall k :: 0 <= k < |gifts| ==> names[k] == gifts[k].recipientName
  {
    seq(|gifts|, k requires 0 <= k < |gifts| => gifts[k].recipientName)
  }

  /** `names` lists the distinct values of `all[..k]`, each once, in the
      order of their first occurrence. */
  ghost predicate FirstOccurrences(all: seq<string>, k: nat, names: seq<string>) {
    && k <= |all|
    && (forall n :: n in names <==> n in all[..k])
    && Seqs.NoDuplicates(names)
    && (forall i :: 0 <= i < |names| ==> names[i] in all && Seqs.IndexOf(all, names[i]) < k)
    && (forall i, j :: 0 <= i < j < |names| ==> Seqs.IndexOf(all, names[i]) < Seqs.IndexOf(all, names[j]))
  }

  /** One step of the scan: a value already listed is skipped, a new one is
      appended. */
  lemma FirstOccurrencesStep(all: seq<string>, k: nat, names: seq<string>)
    requires k < |all| && FirstOccurrences(all, k, names)
    ensures all[k] in names ==> FirstOccurrences(all, k + 1, names)
    ensures all[k] !in names ==> FirstOccurrences(all, k + 1, names + [all[k]])
  {
    assert all[..k + 1] == all[..k] + [all[k]];
    if all[k] !in names {
      Seqs.IndexOfFresh(all, k);
    }
  }

  /** `Array.from(new Set(names))`: each recipient once, in the order of its
      first gift. */
  method Recipients(gifts: seq<Certificate>) returns (names: seq<string>)
    ensures Seqs.NoDuplicates(names)
    ensures forall n :: n in names <==> n in RecipientNames(gifts)
    ensures forall i, j :: 0 <= i < j < |names| ==>
      Seqs.IndexOf(RecipientNames(gifts), names[i]) < Seqs.IndexOf(RecipientNames(gifts), names[j])
  {
    var all := RecipientNames(gifts);
    var unique: set<string> := {};
    names := [];
    for k := 0 to |all|
      invariant forall n :: n in unique <==> n in names
      invariant FirstOccurrences(all, k, names)
    {
      FirstOccurrencesStep(all, k, names);
      if all[k] !in unique {
        names := names + [all[k]];
        unique := unique + {all[k]};
      }
    }
    assert all[..|all|] == all;
  }

  /** The search box: an empty term, or a case-insensitive substring of the
      recipient's name or the stock symbol. */
  predicate MatchesSearch(gift: Certificate, term: string) {
    || term == ""
    || Includes(ToLower(gift.recipientName), ToLower(term))
    || Includes(ToLower(gift.stockSymbol), ToLower(term))
  }

  /** The recipient selector: no selection, or exactly this recipient. */
  predicate MatchesRecipient(gift: Certificate, recipient: string) {
    recipient == "" || gift.recipientName == recipient
  }

  predicate Matches(gift: Certificate, term: string, recipient: string) {
    MatchesSearch(gift, term) && MatchesRecipient(gift, recipient)
  }

  /** Both filters as the callback given to the list filter. */
  function Matching(term: string, recipient: string): Certificate -> bool {
    (g: Certificate) => Matches(g, term, recipient)
  }

  datatype SortBy = ByDate | ByName
  datatype SortOrder = Asc | Desc

  /** A `localeCompare`-like comparator whose sign is consistent: swapping the
      arguments flips it, and "not after" is transitive. */
  ghost predicate IsComparator(cmp: (string, string) -> int) {
    && (forall a, b :: cmp(a, b) <= 0 <==> cmp(b, a) >= 0)
    && (forall a, b, c :: cmp(a, b) <= 0 && cmp(b, c) <= 0 ==> cmp(a, c) <= 0)
  }

  /** The sort callback: the date difference or the name comparison, negated
      for descending order. */
  function Compare(a: Certificate, b: Certificate, sortBy: SortBy, order: SortOrder,
                   nameCompare: (string, string) -> int): int
  {
    var compareValue := match sortBy
      case ByDate => a.purchaseDate - b.purchaseDate
      case ByName => nameCompare(a.recipientName, b.recipientName);
    if order == Asc then compareValue else -compareValue
  }

  /** `a` may come before `b` in the sorted list. */
  function NotAfter(sortBy: SortBy, order: SortOrder, nameCompare: (string, string) -> int): (Certificate, Certificate) -> bool {
    (a: Certificate, b: Certificate) => Compare(a, b, sortBy, order, nameCompare) <= 0
  }

  /** Both sort keys give a total preorder (for names, when the collation is a
      consistent comparator), so the sorted result is well defined. */
  lemma NotAfterIsTotalPreorder(sortBy: SortBy, order: SortOrder, nameCompare: (string, string) -> int)
    requires sortBy == ByName ==> IsComparator(nameCompare)
    ensures Seqs.TotalPreorder(NotAfter(sortBy, order, nameCompare))
  {
  }

  /** `filteredAndSortedGifts`. */
  function FilteredAndSortedGifts(gifts: seq<Certificate>, term: string, recipient: string,
                                  sortBy: SortBy, order: SortOrder, nameCompare: (string, string) -> int): (shown: seq<Certificate>)
    // a permutation of exactly the matching gifts: nothing invented, dropped or duplicated
    ensures forall g :: multiset(shown)[g] == if Matches(g, term, recipient) then multiset(gifts)[g] else 0
  {
    var matching := Seqs.Filter(gifts, Matching(term, recipient));
    var sorted := Seqs.Sort(matching, NotAfter(sortBy, order, nameCompare));
    assert forall g :: multiset(sorted)[g] == if Matches(g, term, recipient) then multiset(gifts)[g] else 0 by {
      forall g ensures multiset(sorted)[g] == if Matches(g, term, recipient) then multiset(gifts)[g] else 0 {
        Seqs.FilterMultiset(gifts, Matching(term, recipient), g);
      }
    }
    sorted
  }

  /** A gift is shown iff it is in the list and matches both filters. */
  lemma ShownIffMatches(gifts: seq<Certificate>, term: string, recipient: string,
                        sortBy: SortBy, order: SortOrder, nameCompare: (string, string) -> int, g: Certificate)
    ensures g in FilteredAndSortedGifts(gifts, term, recipient, sortBy, order, nameCompare)
        <==> g in gifts && MatchesSearch(g, term) && MatchesRecipient(g, recipient)
  {
    var shown := FilteredAndSortedGifts(gifts, term, recipient, sortBy, order, nameCompare);
    assert g in shown <==> multiset(shown)[g] > 0;
    assert g in gifts <==> multiset(gifts)[g] > 0;
  }

  /** With no search term and no recipient selected, every gift is shown. */
  lemma NoFiltersShowsAll(gifts: seq<Certificate>, sortBy: SortBy, order: SortOrder, nameCompare: (string, string) -> int)
    ensures multiset(FilteredAndSortedGifts(gifts, "", "", sortBy, order, nameCompare)) == multiset(gifts)
  {
  }

  /** The shown list is the matching sublist, sorted. */
  lemma FilteredAndSortedUnfold(gifts: seq<Certificate>, term: string, recipient: string,
                                sortBy: SortBy, order: SortOrder, nameCompare: (string, string) -> int)
    ensures FilteredAndSortedGifts(gifts, term, recipient, sortBy, order, nameCompare)
         == Seqs.Sort(Seqs.Filter(gifts, Matching(term, recipient)), NotAfter(sortBy, order, nameCompare))
  {
  }

  /** Sorting by date orders purchase dates ascending or descending. */
  lemma SortedDates(matching: seq<Certificate>, order: SortOrder, nameCompare: (string, string) -> int)
    ensures var sorted := Seqs.Sort(matching, NotAfter(ByDate, order, nameCompare));
      forall i, j :: 0 <= i < j < |sorted| ==>
        if order == Asc then sorted[i].purchaseDate <= sorted[j].purchaseDate
        else sorted[i].purchaseDate >= sorted[j].purchaseDate
  {
    var le := NotAfter(ByDate, order, nameCompare);
    NotAfterIsTotalPreorder(ByDate, order, nameCompare);
    Seqs.SortSorted(matching, le);
  }

  /** Sorting by name follows the collation, reversed for descending order. */
  lemma SortedNames(matching: seq<Certificate>, order: SortOrder, nameCompare: (string, string) -> int)
    requires IsComparator(nameCompare)
    ensures var sorted := Seqs.Sort(matching, NotAfter(ByName, order, nameCompare));
      forall i, j :: 0 <= i < j < |sorted| ==>
        if order == Asc then nameCompare(sorted[i].recipientName, sorted[j].recipientName) <= 0
        else nameCompare(sorted[i].recipientName, sorted[j].recipientName) >= 0
  {
    var le := NotAfter(ByName, order, nameCompare);
    NotAfterIsTotalPreorder(ByName, order, nameCompare);
    Seqs.SortSorted(matching, le);
  }

  /** The shown list, sorted by date, orders purchase dates ascending or descending. */
  lemma SortByDateOrdered(gifts: seq<Certificate>, term: string, recipient: string, order: SortOrder,
                          nameCompare: (string, string) -> int)
    ensures var shown := FilteredAndSortedGifts(gifts, term, recipient, ByDate, order, nameCompare);
      forall i, j :: 0 <= i < j < |shown| ==>
        if order == Asc then shown[i].purchaseDate <= shown[j].purchaseDate
        else shown[i].purchaseDate >= shown[j].purchaseDate
  {
    FilteredAndSortedUnfold(gifts, term, recipient, ByDate, order, nameCompare);
    var matching := Seqs.Filter(gifts, Matching(term, recipient));
    SortedDates(matching, order, nameCompare);
  }

  /** The shown list, sorted by name, follows the collation, reversed for descending order. */
  lemma SortByNameOrdered(gifts: seq<Certificate>, term: string, recipient: string, order: SortOrder,
                          nameCompare: (string, string) -> int)
    requires IsComparator(nameCompare)
    ensures var shown := FilteredAndSortedGifts(gifts, term, recipient, ByName, order, nameCompare);
      forall i, j :: 0 <= i < j < |shown| ==>
        if order == Asc then nameCompare(shown[i].recipientName, shown[j].recipientName) <= 0
        else nameCompare(shown[i].recipientName, shown[j].recipientName) >= 0
  {
    FilteredAndSortedUnfold(gifts, term, recipient, ByName, order, nameCompare);
    var matching := Seqs.Filter(gifts, Matching(term, recipient));
    SortedNames(matching, order, nameCompare);
  }
}
