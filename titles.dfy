/** The `Title` table and the parts of the views that read and write it:
    `_get_title_queryset`, `_get_titles_text`, `_map_vectors_titles` and
    `MapTitleInformation._create_title_from_service`. The database table is
    modelled as the sequence of its rows in insertion order; primary keys
    are handed out in increasing order, so that order is ascending pk. */
module TitleStore {
  import opened Wrappers

  /** One row of the bag-of-words count matrix, as written to a title's
      vector file. */
  type Vector = seq<int>

  datatype Title = Title(
    pk: nat,
    identifier: string,
    publisher: string,
    theme: string,
    name: string,
    completeText: string,
    vectorFile: Option<Vector>)

  /** A `{"name": ...}` object of the content service. */
  datatype Named = Named(name: string)

  /** A title as the content service returns it: `sync_key`, `publisher`,
      the list `theme` and `title_name`. */
  datatype ServiceTitle = ServiceTitle(
    syncKey: string,
    publisher: Named,
    themes: seq<Named>,
    titleName: string)

  predicate AscendingPks(rows: seq<Title>) {
    forall i, j :: 0 <= i < j < |rows| ==> rows[i].pk < rows[j].pk
  }

  predicate DescendingPks(rows: seq<Title>) {
    forall i, j :: 0 <= i < j < |rows| ==> rows[i].pk > rows[j].pk
  }

  /** Primary keys identify rows: in ascending pk order no two rows share one. */
  lemma SamePkSameRow(rows: seq<Title>, i: nat, j: nat)
    requires AscendingPks(rows) && i < |rows| && j < |rows| && rows[i].pk == rows[j].pk
    ensures i == j
  {}

  // ---------------------------------------------------------------------
  // _get_title_queryset

  /** The filter of `_get_title_queryset`: a non-empty key list selects by
      identifier; otherwise a non-empty theme selects by theme; otherwise
      every title; and titles with an empty `complete_text` are excluded. */
  predicate Selected(t: Title, listKeys: seq<string>, themeFilter: Option<string>) {
    && t.completeText != ""
    && if |listKeys| > 0 then t.identifier in listKeys
       else if themeFilter.Some? && themeFilter.value != "" then t.theme == themeFilter.value
       else true
  }

  /** The selected rows, in table order. */
  function Matching(rows: seq<Title>, listKeys: seq<string>, themeFilter: Option<string>): (r: seq<Title>)
    ensures |r| <= |rows|
    ensures forall t :: t in r <==> t in rows && Selected(t, listKeys, themeFilter)
  {
    if rows == [] then []
    else
      var last := rows[|rows| - 1];
      Matching(rows[..|rows| - 1], listKeys, themeFilter) + if Selected(last, listKeys, themeFilter) then [last] else []
  }

  /** With no key list and no theme, a table whose titles all have a text
      is selected whole, in table order. */
  lemma {:induction false} UnfilteredMatchingKeepsAll(rows: seq<Title>)
    requires forall i :: 0 <= i < |rows| ==> rows[i].completeText != ""
    ensures Matching(rows, [], None) == rows
  {
    if rows != [] {
      var n := |rows| - 1;
      var init, last := rows[..n], rows[n];
      assert forall i :: 0 <= i < |init| ==> init[i].completeText != "" by {
        assert forall i :: 0 <= i < |init| ==> init[i] == rows[i];
      }
      UnfilteredMatchingKeepsAll(init);
      calc {
        Matching(rows, [], None);
        { assert Selected(last, [], None); }
        Matching(init, [], None) + [last];
        init + [last];
        { assert init + [last] == rows; }
        rows;
      }
    }
  }

  function Reverse(s: seq<Title>): (r: seq<Title>)
    ensures |r| == |s| && forall i :: 0 <= i < |s| ==> r[i] == s[|s| - 1 - i]
    ensures forall t :: t in r <==> t in s
  {
    if s == [] then [] else [s[|s| - 1]] + Reverse(s[..|s| - 1])
  }

  /** `_get_title_queryset(book_limit, list_keys, theme_filter)`: the
      selected titles, newest (highest pk) first, cut to `book_limit` when
      that is positive. */
  function TitleQueryset(rows: seq<Title>, bookLimit: int, listKeys: seq<string>, themeFilter: Option<string>): (r: seq<Title>)
    ensures forall t :: t in r ==> t in rows && t.completeText != ""
    ensures |listKeys| > 0 ==> forall t :: t in r ==> t.identifier in listKeys
    ensures |listKeys| == 0 && themeFilter.Some? && themeFilter.value != "" ==>
      forall t :: t in r ==> t.theme == themeFilter.value
    ensures bookLimit > 0 ==> |r| <= bookLimit
    ensures bookLimit <= 0 ==> forall t :: t in rows && Selected(t, listKeys, themeFilter) ==> t in r
  {
    var ordered := Reverse(Matching(rows, listKeys, themeFilter));
    assert forall k :: 0 <= k <= |ordered| ==> forall t :: t in ordered[..k] ==> t in ordered;
    if bookLimit > 0 && bookLimit < |ordered| then ordered[..bookLimit] else ordered
  }

  lemma {:induction false} MatchingKeepsOrder(rows: seq<Title>, listKeys: seq<string>, themeFilter: Option<string>)
    requires AscendingPks(rows)
    ensures AscendingPks(Matching(rows, listKeys, themeFilter))
  {
    if rows != [] {
      var init := rows[..|rows| - 1];
      assert AscendingPks(init);
      MatchingKeepsOrder(init, listKeys, themeFilter);
      var m := Matching(init, listKeys, themeFilter);
      forall t | t in m
        ensures t.pk < rows[|rows| - 1].pk
      {
        var k :| 0 <= k < |init| && init[k] == t;
      }
    }
  }

  lemma ReverseDescending(s: seq<Title>)
    requires AscendingPks(s)
    ensures DescendingPks(Reverse(s))
  {
    var r := Reverse(s);
    forall i, j | 0 <= i < j < |r|
      ensures r[i].pk > r[j].pk
    {
      assert r[i] == s[|s| - 1 - i] && r[j] == s[|s| - 1 - j];
    }
  }

  lemma PrefixDescending(s: seq<Title>, k: nat)
    requires DescendingPks(s) && k <= |s|
    ensures DescendingPks(s[..k])
  {
    forall i, j | 0 <= i < j < k
      ensures s[..k][i].pk > s[..k][j].pk
    {
      assert s[..k][i] == s[i] && s[..k][j] == s[j];
    }
  }

  /** The queryset is in strictly descending pk order, as `order_by("-pk")`
      promises, whichever filter and limit apply. */
  lemma QuerysetDescending(rows: seq<Title>, bookLimit: int, listKeys: seq<string>, themeFilter: Option<string>)
    requires AscendingPks(rows)
    ensures DescendingPks(TitleQueryset(rows, bookLimit, listKeys, themeFilter))
  {
    var m := Matching(rows, listKeys, themeFilter);
    MatchingKeepsOrder(rows, listKeys, themeFilter);
    var ordered := Reverse(m);
    ReverseDescending(m);
    if bookLimit > 0 && bookLimit < |ordered| {
      PrefixDescending(ordered, bookLimit);
    }
  }

  lemma {:induction false} MatchingIgnoresTheme(rows: seq<Title>, listKeys: seq<string>, theme1: Option<string>, theme2: Option<string>)
    requires |listKeys| > 0
    ensures Matching(rows, listKeys, theme1) == Matching(rows, listKeys, theme2)
  {
    if rows != [] {
      MatchingIgnoresTheme(rows[..|rows| - 1], listKeys, theme1, theme2);
    }
  }

  /** A non-empty key list overrides the theme filter: the theme then has no
      effect on the queryset. */
  lemma KeysOverrideTheme(rows: seq<Title>, bookLimit: int, listKeys: seq<string>, theme1: Option<string>, theme2: Option<string>)
    requires |listKeys| > 0
    ensures TitleQueryset(rows, bookLimit, listKeys, theme1) == TitleQueryset(rows, bookLimit, listKeys, theme2)
  {
    MatchingIgnoresTheme(rows, listKeys, theme1, theme2);
  }

  /** A positive `book_limit` keeps the first `book_limit` titles of the
      unlimited queryset (the newest ones), or all of them if there are
      fewer. */
  lemma LimitKeepsNewest(rows: seq<Title>, bookLimit: int, listKeys: seq<string>, themeFilter: Option<string>)
    requires bookLimit > 0
    ensures var all := TitleQueryset(rows, 0, listKeys, themeFilter);
      var r := TitleQueryset(rows, bookLimit, listKeys, themeFilter);
      |r| == (if bookLimit < |all| then bookLimit else |all|) && r == all[..|r|]
  {}

  // ---------------------------------------------------------------------
  // _get_titles_text

  /** The non-empty texts of the queryset, in queryset order. */
  function NonEmptyTexts(queryset: seq<Title>): (texts: seq<string>)
    ensures |texts| <= |queryset|
    ensures forall k :: 0 <= k < |texts| ==> texts[k] != ""
    ensures forall s :: s in texts <==> s != "" && exists t :: t in queryset && t.completeText == s
    ensures (forall t :: t in queryset ==> t.completeText != "") ==> |texts| == |queryset|
  {
    if queryset == [] then []
    else
      var last := queryset[|queryset| - 1];
      NonEmptyTexts(queryset[..|queryset| - 1]) + if last.completeText != "" then [last.completeText] else []
  }

  /** Compiling one more title appends its text when it is non-empty. */
  lemma NonEmptyTextsStep(queryset: seq<Title>, i: nat)
    requires i < |queryset|
    ensures NonEmptyTexts(queryset[..i + 1]) ==
      NonEmptyTexts(queryset[..i]) + if queryset[i].completeText != "" then [queryset[i].completeText] else []
  {
    assert queryset[..i + 1][..i] == queryset[..i];
  }

  /** `_get_titles_text`: the loop that appends each non-empty text. */
  method TitlesText(queryset: seq<Title>) returns (compiledText: seq<string>)
    ensures compiledText == NonEmptyTexts(queryset)
  {
    compiledText := [];
    var i := 0;
    while i < |queryset|
      invariant 0 <= i <= |queryset|
      invariant compiledText == NonEmptyTexts(queryset[..i])
    {
      var title := queryset[i];
      NonEmptyTextsStep(queryset, i);
      if title.completeText != "" {
        compiledText := compiledText + [title.completeText];
      }
      i := i + 1;
    }
    assert queryset[..i] == queryset;
  }

  /** Texts keep their relative order: the texts of a concatenation are the
      texts of its parts, one after the other. */
  lemma {:induction false} NonEmptyTextsAppend(a: seq<Title>, b: seq<Title>)
    ensures NonEmptyTexts(a + b) == NonEmptyTexts(a) + NonEmptyTexts(b)
    decreases |b|
  {
    if b == [] {
      assert a + b == a;
    } else {
      var b' := b[..|b| - 1];
      var last := b[|b| - 1];
      var tail := if last.completeText != "" then [last.completeText] else [];
      assert (a + b)[..|a + b| - 1] == a + b';
      assert (a + b)[|a + b| - 1] == last;
      NonEmptyTextsAppend(a, b');
      calc {
        NonEmptyTexts(a + b);
        NonEmptyTexts(a + b') + tail;
        NonEmptyTexts(a) + NonEmptyTexts(b') + tail;
        NonEmptyTexts(a) + (NonEmptyTexts(b') + tail);
        NonEmptyTexts(a) + NonEmptyTexts(b);
      }
    }
  }

  /** When no title of the queryset has an empty text, nothing is dropped:
      document `i` is the text of the `i`-th title. */
  lemma {:induction false} NonEmptyTextsAligned(queryset: seq<Title>)
    requires forall t :: t in queryset ==> t.completeText != ""
    ensures |NonEmptyTexts(queryset)| == |queryset|
    ensures forall i :: 0 <= i < |queryset| ==> NonEmptyTexts(queryset)[i] == queryset[i].completeText
  {
    if queryset != [] {
      var init := queryset[..|queryset| - 1];
      NonEmptyTextsAligned(init);
    }
  }

  /** The documents handed to the vectoriser line up one to one with the
      queryset, since the queryset already excludes empty texts. */
  lemma QuerysetTextsAligned(rows: seq<Title>, bookLimit: int, listKeys: seq<string>, themeFilter: Option<string>)
    ensures var q := TitleQueryset(rows, bookLimit, listKeys, themeFilter);
      && |NonEmptyTexts(q)| == |q|
      && forall i :: 0 <= i < |q| ==> NonEmptyTexts(q)[i] == q[i].completeText
  {
    NonEmptyTextsAligned(TitleQueryset(rows, bookLimit, listKeys, themeFilter));
  }

  // ---------------------------------------------------------------------
  // _create_title_from_service

  predicate HasIdentifier(rows: seq<Title>, identifier: string) {
    exists t :: t in rows && t.identifier == identifier
  }

  predicate UniqueIdentifiers(rows: seq<Title>) {
    forall i, j :: 0 <= i < j < |rows| ==> rows[i].identifier != rows[j].identifier
  }

  /** The table together with the next primary key to hand out. */
  datatype TableState = TableState(rows: seq<Title>, nextPk: nat)

  /** The record saved for a service title: the theme is the name of its
      first theme, or "" when it has none; the text and vector file are not
      set yet. */
  function NewTitle(pk: nat, title: ServiceTitle): (t: Title)
    ensures t.pk == pk && t.identifier == title.syncKey
    ensures t.completeText == "" && t.vectorFile == None
    ensures t.theme == if title.themes == [] then "" else title.themes[0].name
  {
    var theme := if |title.themes| > 0 then title.themes[0].name else "";
    Title(pk, title.syncKey, title.publisher.name, theme, title.titleName, "", None)
  }

  /** `_create_title_from_service` on a table state. */
  function CreateFromService(s: TableState, title: ServiceTitle): (s': TableState)
    ensures HasIdentifier(s'.rows, title.syncKey)
    ensures HasIdentifier(s.rows, title.syncKey) ==> s' == s
    ensures !HasIdentifier(s.rows, title.syncKey) ==>
      s'.rows == s.rows + [NewTitle(s.nextPk, title)] && s'.nextPk == s.nextPk + 1
  {
    if HasIdentifier(s.rows, title.syncKey) then s
    else TableState(s.rows + [NewTitle(s.nextPk, title)], s.nextPk + 1)
  }

  /** Creating the same service title twice changes nothing the second time. */
  lemma CreateIdempotent(s: TableState, title: ServiceTitle)
    ensures CreateFromService(CreateFromService(s, title), title) == CreateFromService(s, title)
  {}

  /** Insert-if-absent keeps identifiers unique. */
  lemma CreateKeepsIdentifiersUnique(s: TableState, title: ServiceTitle)
    requires UniqueIdentifiers(s.rows)
    ensures UniqueIdentifiers(CreateFromService(s, title).rows)
  {
    if !HasIdentifier(s.rows, title.syncKey) {
      var rows' := CreateFromService(s, title).rows;
      forall i, j | 0 <= i < j < |rows'|
        ensures rows'[i].identifier != rows'[j].identifier
      {
        if j == |s.rows| {
          assert rows'[i] in s.rows;
        }
      }
    }
  }

  /** The table seen as a map from identifier to record (the last row with
      that identifier, the only one when identifiers are unique). */
  ghost function ByIdentifier(rows: seq<Title>): (m: map<string, Title>)
    ensures forall id :: id in m <==> HasIdentifier(rows, id)
  {
    if rows == [] then map[]
    else
      var last := rows[|rows| - 1];
      var init := rows[..|rows| - 1];
      assert forall t :: t in rows <==> t in init || t == last;
      ByIdentifier(init)[last.identifier := last]
  }

  lemma ByIdentifierAppend(rows: seq<Title>, t: Title)
    ensures ByIdentifier(rows + [t]) == ByIdentifier(rows)[t.identifier := t]
  {
    var rows' := rows + [t];
    assert rows'[..|rows'| - 1] == rows;
    assert rows'[|rows'| - 1] == t;
  }

  /** Over that map, creating a title adds the key `sync_key` with the new
      record when the key is absent, and leaves the map alone otherwise. */
  lemma CreateAsMapInsert(s: TableState, title: ServiceTitle)
    ensures var m := ByIdentifier(s.rows);
      ByIdentifier(CreateFromService(s, title).rows) ==
        if title.syncKey in m then m else m[title.syncKey := NewTitle(s.nextPk, title)]
  {
    var m := ByIdentifier(s.rows);
    if HasIdentifier(s.rows, title.syncKey) {
      assert title.syncKey in m;
      assert CreateFromService(s, title) == s;
    } else {
      assert title.syncKey !in m;
      var n := NewTitle(s.nextPk, title);
      assert CreateFromService(s, title).rows == s.rows + [n];
      ByIdentifierAppend(s.rows, n);
    }
  }

  /** The service titles of the requested keys, in request order, skipping
      the keys the service does not know. */
  function FoundTitles(keys: seq<string>, lookup: string -> Option<ServiceTitle>): (ts: seq<ServiceTitle>)
    ensures |ts| <= |keys|
  {
    if keys == [] then []
    else
      var init := FoundTitles(keys[..|keys| - 1], lookup);
      match lookup(keys[|keys| - 1])
      case Some(t) => init + [t]
      case None => init
  }

  /** A title is imported exactly when some requested key resolves to it. */
  lemma {:induction false} FoundTitlesMembers(keys: seq<string>, lookup: string -> Option<ServiceTitle>, t: ServiceTitle)
    ensures t in FoundTitles(keys, lookup) <==> exists k :: k in keys && lookup(k) == Some(t)
  {
    if keys != [] {
      var init := keys[..|keys| - 1];
      FoundTitlesMembers(init, lookup, t);
      assert forall k :: k in keys <==> k in init || k == keys[|keys| - 1];
    }
  }

  /** `_create_title_from_service` for each title in turn. */
  function CreateAll(s: TableState, titles: seq<ServiceTitle>): TableState {
    if titles == [] then s else CreateFromService(CreateAll(s, titles[..|titles| - 1]), titles[|titles| - 1])
  }

  /** Looking up one more key adds the service title it resolves to, if
      any, after the earlier ones. */
  lemma FoundTitlesStep(keys: seq<string>, i: nat, lookup: string -> Option<ServiceTitle>)
    requires i < |keys|
    ensures lookup(keys[i]).None? ==> FoundTitles(keys[..i + 1], lookup) == FoundTitles(keys[..i], lookup)
    ensures lookup(keys[i]).Some? ==>
      FoundTitles(keys[..i + 1], lookup) == FoundTitles(keys[..i], lookup) + [lookup(keys[i]).value]
  {
    assert keys[..i + 1][..i] == keys[..i];
  }

  /** Importing one more title creates it after the earlier ones. */
  lemma CreateAllStep(s: TableState, titles: seq<ServiceTitle>, t: ServiceTitle)
    ensures CreateAll(s, titles + [t]) == CreateFromService(CreateAll(s, titles), t)
  {
    assert (titles + [t])[..|titles|] == titles;
  }

  lemma {:induction false} CreateAllKeepsIdentifiers(s: TableState, titles: seq<ServiceTitle>, id: string)
    requires HasIdentifier(s.rows, id)
    ensures HasIdentifier(CreateAll(s, titles).rows, id)
  {
    if titles != [] {
      CreateAllKeepsIdentifiers(s, titles[..|titles| - 1], id);
    }
  }

  lemma {:induction false} CreateAllCoversTitles(s: TableState, titles: seq<ServiceTitle>)
    ensures forall t :: t in titles ==> HasIdentifier(CreateAll(s, titles).rows, t.syncKey)
  {
    if titles != [] {
      var init := titles[..|titles| - 1];
      CreateAllCoversTitles(s, init);
      forall t | t in titles
        ensures HasIdentifier(CreateAll(s, titles).rows, t.syncKey)
      {
        if t in init {
          CreateAllKeepsIdentifiers(CreateAll(s, init), [titles[|titles| - 1]], t.syncKey);
          assert [titles[|titles| - 1]][..0] == [];
        }
      }
    }
  }

  lemma {:induction false} CreateAllNoop(s: TableState, titles: seq<ServiceTitle>)
    requires forall t :: t in titles ==> HasIdentifier(s.rows, t.syncKey)
    ensures CreateAll(s, titles) == s
  {
    if titles != [] {
      CreateAllNoop(s, titles[..|titles| - 1]);
    }
  }

  /** Importing the same titles a second time changes nothing. */
  lemma CreateAllIdempotent(s: TableState, titles: seq<ServiceTitle>)
    ensures CreateAll(CreateAll(s, titles), titles) == CreateAll(s, titles)
  {
    CreateAllCoversTitles(s, titles);
    CreateAllNoop(CreateAll(s, titles), titles);
  }

  // ---------------------------------------------------------------------
  // _map_vectors_titles

  /** `item.vector_file.save(...)` for the row with primary key `pk`: that
      row gets the vector file and nothing else changes. */
  function SaveVectorFile(rows: seq<Title>, pk: nat, v: Vector): seq<Title> {
    seq(|rows|, i requires 0 <= i < |rows| => if rows[i].pk == pk then rows[i].(vectorFile := Some(v)) else rows[i])
  }

  /** The table after the vector files of the first `|queryset|` titles
      have been saved, title `k` receiving vector `k`. */
  function AssignVectors(rows: seq<Title>, queryset: seq<Title>, vectors: seq<Vector>): (r: seq<Title>)
    requires |queryset| <= |vectors|
    ensures |r| == |rows|
    ensures forall i :: 0 <= i < |rows| ==> r[i] == rows[i].(vectorFile := r[i].vectorFile)
  {
    if queryset == [] then rows
    else
      var k := |queryset| - 1;
      SaveVectorFile(AssignVectors(rows, queryset[..k], vectors), queryset[k].pk, vectors[k])
  }

  /** With pairwise-distinct primary keys in the queryset (in any order),
      the row of title `k` holds vector `k`. */
  lemma {:induction false} AssignedRow(rows: seq<Title>, queryset: seq<Title>, vectors: seq<Vector>, j: nat, k: nat)
    requires |queryset| <= |vectors|
    requires forall a, b :: 0 <= a < b < |queryset| ==> queryset[a].pk != queryset[b].pk
    requires j < |rows| && k < |queryset| && queryset[k].pk == rows[j].pk
    ensures AssignVectors(rows, queryset, vectors)[j] == rows[j].(vectorFile := Some(vectors[k]))
  {
    var last := |queryset| - 1;
    if k < last {
      AssignedRow(rows, queryset[..last], vectors, j, k);
      assert queryset[last].pk != queryset[k].pk;
    }
  }

  /** Rows of titles outside the queryset are left as they were. */
  lemma {:induction false} UnassignedRow(rows: seq<Title>, queryset: seq<Title>, vectors: seq<Vector>, j: nat)
    requires |queryset| <= |vectors|
    requires j < |rows| && forall t :: t in queryset ==> t.pk != rows[j].pk
    ensures AssignVectors(rows, queryset, vectors)[j] == rows[j]
  {
    if queryset != [] {
      UnassignedRow(rows, queryset[..|queryset| - 1], vectors, j);
    }
  }

  /** The `Title` table as the views see it. */
  class TitleTable {
    var rows: seq<Title>
    var nextPk: nat

    ghost predicate Valid()
      reads this
    {
      && AscendingPks(rows)
      && forall i :: 0 <= i < |rows| ==> rows[i].pk < nextPk
    }

    function State(): TableState
      reads this
    {
      TableState(rows, nextPk)
    }

    /** An empty table; primary keys start at 1. */
    constructor ()
      ensures Valid() && rows == [] && nextPk == 1
    {
      rows := [];
      nextPk := 1;
    }

    /** `MapTitleInformation._create_title_from_service`. */
    method CreateTitleFromService(title: ServiceTitle)
      requires Valid()
      modifies this
      ensures Valid()
      ensures State() == CreateFromService(old(State()), title)
    {
      if !HasIdentifier(rows, title.syncKey) {
        var theme := if |title.themes| > 0 then title.themes[0].name else "";
        rows := rows + [Title(nextPk, title.syncKey, title.publisher.name, theme, title.titleName, "", None)];
        nextPk := nextPk + 1;
      }
    }

    /** `PrepareTrainData._map_vectors_titles`: the `i`-th title of the
        queryset is given row `i` of `vectors`, the counter going up by one
        per title. */
    method MapVectorsTitles(vectors: seq<Vector>, queryset: seq<Title>)
      requires Valid()
      requires |queryset| <= |vectors|
      modifies this
      ensures Valid() && nextPk == old(nextPk)
      ensures rows == AssignVectors(old(rows), queryset, vectors)
    {
      var itemCounter := 0;
      while itemCounter < |queryset|
        invariant 0 <= itemCounter <= |queryset|
        invariant nextPk == old(nextPk)
        invariant rows == AssignVectors(old(rows), queryset[..itemCounter], vectors)
        invariant Valid()
      {
        var item := queryset[itemCounter];
        assert queryset[..itemCounter + 1][..itemCounter] == queryset[..itemCounter];
        rows := SaveVectorFile(rows, item.pk, vectors[itemCounter]);
        itemCounter := itemCounter + 1;
      }
      assert queryset[..itemCounter] == queryset;
    }
  }
}
