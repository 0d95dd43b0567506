/**
 * The show list: the rows narrowed by the artist tab, the search box and
 * the month picker, and the money totals over what is left, shown only to
 * the roles allowed to see money.
 */
module ShowsList {
  import opened Wrappers
  import opened JsString
  import opened JsNumber
  import opened Seqs
  import opened Shows
  import opened Dashboard

  datatype Role = Admin | Staff | ArtistRole

  /** `profile?.role === "admin" || profile?.role === "artist"`; `None` is
      the profile not loaded yet. */
  predicate CanSeeMoney(profile: Option<Role>) {
    profile == Some(Admin) || profile == Some(ArtistRole)
  }

  /** Money is hidden from staff and while the profile is loading, and
      shown to everyone else. */
  lemma MoneyRoles(profile: Option<Role>)
    ensures CanSeeMoney(profile) <==> profile.Some? && profile.value != Staff
    ensures !CanSeeMoney(None) && !CanSeeMoney(Some(Staff))
  {
  }

  /** The tab bar: "ALL", "JEYF" or "ELGUDI". */
  datatype Tab = All | Only(artist: Artist)

  predicate ArtistOk(r: ShowRow, tab: Tab) {
    tab.All? || r.artist == Some(tab.artist)
  }

  /** What the search box is compared with: `q.trim().toLowerCase()`. */
  function SearchText(q: string): string {
    ToLower(Trim(q))
  }

  /** An empty search matches; otherwise one of the three text columns,
      lower-cased and with `null` read as "", must contain it. */
  predicate TextOk(r: ShowRow, text: string) {
    text == []
    || Includes(ToLower(r.eventName.GetOr("")), text)
    || Includes(ToLower(r.venueName.GetOr("")), text)
    || Includes(ToLower(r.addressText.GetOr("")), text)
  }

  /** An empty month matches; otherwise the date must start with it. */
  predicate MonthOk(r: ShowRow, month: string) {
    month == [] || StartsWith(r.showDate.GetOr(""), month)
  }

  predicate Matches(r: ShowRow, tab: Tab, q: string, month: string) {
    ArtistOk(r, tab) && TextOk(r, SearchText(q)) && MonthOk(r, month)
  }

  /** `filtered`: the rows passing all three filters, in query order. */
  function Filtered(rows: seq<ShowRow>, tab: Tab, q: string, month: string): (f: seq<ShowRow>)
    ensures |f| <= |rows|
    ensures forall r :: r in f <==> r in rows && Matches(r, tab, q, month)
  {
    FilterMembers(rows, (r: ShowRow) => Matches(r, tab, q, month));
    Filter(rows, (r: ShowRow) => Matches(r, tab, q, month))
  }

  /** The list keeps query order: it is the rows with some left out. */
  lemma FilteredIsSubsequence(rows: seq<ShowRow>, tab: Tab, q: string, month: string)
    ensures IsSubsequence(Filtered(rows, tab, q, month), rows)
  {
    FilterIsSubsequence(rows, (r: ShowRow) => Matches(r, tab, q, month));
  }

  /** "ALL" lets every artist through; an artist tab only that artist's
      rows. */
  lemma TabSemantics(r: ShowRow, a: Artist)
    ensures ArtistOk(r, All)
    ensures ArtistOk(r, Only(a)) <==> r.artist == Some(a)
  {
  }

  /** A search that is empty or all white space matches every row;
      otherwise a row matches exactly when the lower-cased trimmed search
      occurs in one of its lower-cased text columns. */
  lemma SearchSemantics(r: ShowRow, q: string)
    ensures (forall i :: 0 <= i < |q| ==> IsWhitespace(q[i])) ==> TextOk(r, SearchText(q))
    ensures !(forall i :: 0 <= i < |q| ==> IsWhitespace(q[i])) ==>
      (TextOk(r, SearchText(q)) <==>
        (exists i :: OccursAt(ToLower(r.eventName.GetOr("")), SearchText(q), i))
        || (exists i :: OccursAt(ToLower(r.venueName.GetOr("")), SearchText(q), i))
        || (exists i :: OccursAt(ToLower(r.addressText.GetOr("")), SearchText(q), i)))
  {
    TrimEmptyIffBlank(q);
    IncludesIffOccurs(ToLower(r.eventName.GetOr("")), SearchText(q));
    IncludesIffOccurs(ToLower(r.venueName.GetOr("")), SearchText(q));
    IncludesIffOccurs(ToLower(r.addressText.GetOr("")), SearchText(q));
  }

  /** With the default filters ("ALL", no search, no month) the list is
      every row. */
  lemma DefaultFiltersKeepAll(rows: seq<ShowRow>)
    ensures Filtered(rows, All, "", "") == rows
  {
    assert Trim("") == "";
    FilterAllPass(rows, (r: ShowRow) => Matches(r, All, "", ""));
  }

  /** Filtering the list again with the same choices changes nothing. */
  lemma FilteredIdempotent(rows: seq<ShowRow>, tab: Tab, q: string, month: string)
    ensures Filtered(Filtered(rows, tab, q, month), tab, q, month) == Filtered(rows, tab, q, month)
  {
    FilterIdempotent(rows, (r: ShowRow) => Matches(r, tab, q, month));
  }

  // ---------------------------------------------------------------------
  // totals

  datatype Totals = Totals(showCost: Number, advance: Number, via: Number)

  /** `Number(x ?? 0)` for a numeric column. */
  function OrZero(a: Amount): Number {
    a.GetOr(Finite(0.0))
  }

  /** The running sum `acc += Number(r.<field> ?? 0)` over the rows, in
      order. */
  function Total(rows: seq<ShowRow>, field: MoneyField): Number {
    if rows == [] then Finite(0.0)
    else Add(Total(rows[..|rows| - 1], field), OrZero(MoneyAmount(rows[|rows| - 1], field)))
  }

  /** `totals`: `null` for roles that may not see money, otherwise the three
      running sums over the filtered rows. */
  method ComputeTotals(filtered: seq<ShowRow>, profile: Option<Role>) returns (t: Option<Totals>)
    ensures t.None? <==> !CanSeeMoney(profile)
    ensures t.Some? ==> t.value == Totals(Total(filtered, ShowCost), Total(filtered, AdvancePaid), Total(filtered, Viaticos))
  {
    if !CanSeeMoney(profile) {
      return None;
    }
    var showCost := Finite(0.0);
    var advance := Finite(0.0);
    var via := Finite(0.0);
    var i := 0;
    while i < |filtered|
      invariant 0 <= i <= |filtered|
      invariant showCost == Total(filtered[..i], ShowCost)
      invariant advance == Total(filtered[..i], AdvancePaid)
      invariant via == Total(filtered[..i], Viaticos)
    {
      var r := filtered[i];
      assert filtered[..i + 1][..i] == filtered[..i];
      showCost := Add(showCost, OrZero(r.showCost));
      advance := Add(advance, OrZero(r.advancePaid));
      via := Add(via, OrZero(r.viaticosCobrados));
      i := i + 1;
    }
    assert filtered[..i] == filtered;
    return Some(Totals(showCost, advance, via));
  }

  /** While every amount is a finite number or `null`, a total is the
      dashboard's sum of the same column (`null` counting 0); one infinite
      or NaN amount makes the total non-finite, where the dashboard would
      count it as 0. */
  lemma {:induction false} TotalIsMoneySum(rows: seq<ShowRow>, field: MoneyField)
    ensures Total(rows, field).Finite?
        <==> forall i :: 0 <= i < |rows| ==> OrZero(MoneyAmount(rows[i], field)).Finite?
    ensures Total(rows, field).Finite? ==> Total(rows, field).value == MoneySum(rows, field)
    decreases |rows|
  {
    if rows != [] {
      var init, last := rows[..|rows| - 1], rows[|rows| - 1];
      TotalIsMoneySum(init, field);
      assert init + [last] == rows;
      MoneySumAppend(init, [last], field);
      assert [last][1..] == [];
      assert MoneySum([last], field) == SafeMoney(field)(last) + MoneySum([], field);
    }
  }
}
