/** The vacancy catalog of the landing page: the `data` table's records, the
    featured strip and full list `renderVacancies` builds, the detail panel
    `openVacancy` fills, and the `vacancy=<id>` query parameter that lets a
    detail panel be reopened on load. HTML output is modelled as records. */
module Vacancies {
  import opened Strings

  /** One `inside.paragraphN` entry: a title key and its bullet keys. */
  datatype Section = Section(title: string, bullets: seq<string>)

  /** One entry of the `data` table. The text fields are locale keys. */
  datatype Vacancy = Vacancy(id: nat, icon: string, position: string, description: string,
                             experience: string, officeLocation: string,
                             collaborationVariant: string, buttonData: string,
                             closeVac: bool, visibility: bool,
                             inside: seq<(string, Section)>)

  /** A table: its keys in `Object.keys` order with their entries. */
  type Table = seq<(string, Vacancy)>

  /** A card of the featured strip (`.hero-cards`), `number` being the `.number` text. */
  datatype Card = Card(buttonData: string, icon: string, position: string, experience: string,
                       number: nat)

  /** A row of the full list (`.vacancies-wrap .first`); `closed` is the extra
      `vacancies-close` class on its button. */
  datatype Row = Row(buttonData: string, icon: string, position: string, experience: string,
                     officeLocation: string, collaborationVariant: string, closed: bool)

  /** The detail panel: the sections in `.need`, the `translate-id` of the title and
      description elements, and whether it is open (`.desc` active, `body` hid). */
  datatype Detail = Detail(need: seq<Section>, titleKey: Option<string>,
                           descriptionKey: Option<string>, open: bool)

  /** The query string as `URLSearchParams` holds it: name/value pairs in order. */
  type Query = seq<(string, string)>

  // ---------------------------------------------------------------------------
  // The table

  /** The entry stored under `key` (`data[key]`). */
  function Find(table: Table, key: string): (r: Option<Vacancy>)
    ensures r.Some? <==> exists k :: 0 <= k < |table| && table[k].0 == key
    ensures r.Some? ==> exists k :: 0 <= k < |table| && table[k] == (key, r.value)
  {
    if table == [] then None
    else if table[0].0 == key then Some(table[0].1)
    else
      var r := Find(table[1..], key);
      assert r.Some? ==> exists k :: 0 <= k < |table[1..]| && table[1..][k] == (key, r.value);
      r
  }

  /** An object's keys are distinct. */
  predicate KeysUnique(table: Table) {
    forall j, k :: 0 <= j < k < |table| ==> table[j].0 != table[k].0
  }

  /** No two entries share an id. */
  predicate IdsUnique(table: Table) {
    forall j, k :: 0 <= j < k < |table| ==> table[j].1.id != table[k].1.id
  }

  /** With distinct keys, the entry found under the `k`-th key is the `k`-th entry. */
  lemma {:induction false} FindAt(table: Table, k: nat)
    requires KeysUnique(table) && k < |table|
    ensures Find(table, table[k].0) == Some(table[k].1)
  {
    if k > 0 {
      assert table[0].0 != table[k].0;
      assert table[1..][k - 1] == table[k];
      FindAt(table[1..], k - 1);
    }
  }

  // ---------------------------------------------------------------------------
  // renderVacancies

  /** The featured-strip filter. */
  predicate Featured(v: Vacancy) {
    !v.closeVac && v.visibility
  }

  /** `Object.values(data).filter(item => !item.closeVac && item.visibility)`. */
  function ActiveVacancies(table: Table): (r: seq<Vacancy>)
    ensures |r| <= |table|
    ensures forall v :: v in r ==> Featured(v)
  {
    if table == [] then []
    else
      var last := table[|table| - 1].1;
      ActiveVacancies(table[..|table| - 1]) + (if Featured(last) then [last] else [])
  }

  /** The filter keeps order: the strip of two tables one after the other is the
      first table's strip followed by the second's. */
  lemma {:induction false} ActiveVacanciesAppend(a: Table, b: Table)
    ensures ActiveVacancies(a + b) == ActiveVacancies(a) + ActiveVacancies(b)
    decreases |b|
  {
    if b == [] {
      assert a + b == a;
    } else {
      var binit, last := b[..|b| - 1], b[|b| - 1];
      assert (a + b)[..|a + b| - 1] == a + binit;
      assert (a + b)[|a + b| - 1] == last;
      ActiveVacanciesAppend(a, binit);
      var tail := if Featured(last.1) then [last.1] else [];
      assert ActiveVacancies(b) == ActiveVacancies(binit) + tail;
      assert ActiveVacancies(a + b) == (ActiveVacancies(a) + ActiveVacancies(binit)) + tail;
    }
  }

  /** A one-entry table shows its entry exactly when it is featured; with
      ActiveVacanciesAppend this fixes the strip: the featured entries, each once, in
      table order. */
  lemma ActiveVacanciesSingle(e: (string, Vacancy))
    ensures ActiveVacancies([e]) == if Featured(e.1) then [e.1] else []
  {
    assert [e][..0] == [];
  }

  /** The `i`-th featured card, numbered from 1 (`${++i}`). */
  function CardOf(v: Vacancy, number: nat): Card {
    Card(v.buttonData, v.icon, v.position, v.experience, number)
  }

  /** The row of the full list for an entry. */
  function RowOf(v: Vacancy): Row {
    Row(v.buttonData, v.icon, v.position, v.experience, v.officeLocation,
        v.collaborationVariant, v.closeVac)
  }

  /** The strip holds exactly the featured entries: a value is in it iff some entry
      of the table has it and is featured. */
  lemma {:induction false} ActiveVacanciesExact(table: Table)
    ensures forall v :: v in ActiveVacancies(table) <==>
              exists k :: 0 <= k < |table| && table[k].1 == v && Featured(v)
  {
    if table != [] {
      var init := table[..|table| - 1];
      ActiveVacanciesExact(init);
      forall k | 0 <= k < |init| ensures init[k] == table[k] {
      }
      forall v | exists k :: 0 <= k < |table| && table[k].1 == v && Featured(v)
        ensures v in ActiveVacancies(table)
      {
        var k :| 0 <= k < |table| && table[k].1 == v && Featured(v);
        if k < |init| {
          assert init[k].1 == v;
        }
      }
    }
  }

  // ---------------------------------------------------------------------------
  // The query parameter (`URLSearchParams.get` / `.set`)

  /** `params.get(name)`: the value of the first pair named `name`. */
  function GetParam(q: Query, name: string): (r: Option<string>)
    ensures r.None? <==> forall k :: 0 <= k < |q| ==> q[k].0 != name
  {
    if q == [] then None
    else if q[0].0 == name then Some(q[0].1)
    else GetParam(q[1..], name)
  }

  /** The pairs after the first one named `name` has been given `value` and any
      later ones named `name` dropped. */
  function ReplaceFirst(q: Query, name: string, value: string, seen: bool): (r: Query)
    ensures forall k :: 0 <= k < |r| ==> r[k].0 != name || (!seen && r[k] == (name, value))
    ensures forall k :: 0 <= k < |q| && q[k].0 != name ==> q[k] in r
  {
    if q == [] then []
    else if q[0].0 == name then
      if seen then ReplaceFirst(q[1..], name, value, true)
      else [(name, value)] + ReplaceFirst(q[1..], name, value, true)
    else
      var rest := ReplaceFirst(q[1..], name, value, seen);
      assert forall k :: 1 <= k < |q| && q[k].0 != name ==> q[1..][k - 1] == q[k];
      [q[0]] + rest
  }

  /** `params.set(name, value)`: replace the first pair named `name` and drop the
      others, or append the pair when there is none. */
  function SetParam(q: Query, name: string, value: string): Query {
    if GetParam(q, name).None? then q + [(name, value)]
    else ReplaceFirst(q, name, value, false)
  }

  /** Other parameters read the same after `ReplaceFirst`. */
  lemma {:induction false} ReplaceFirstKeepsOthers(q: Query, name: string, value: string, seen: bool, other: string)
    requires other != name
    ensures GetParam(ReplaceFirst(q, name, value, seen), other) == GetParam(q, other)
  {
    if q != [] {
      ReplaceFirstKeepsOthers(q[1..], name, value, q[0].0 == name || seen, other);
    }
  }

  /** On a query that has the parameter, `ReplaceFirst` makes it read as the new
      value. */
  lemma {:induction false} ReplaceFirstReads(q: Query, name: string, value: string)
    requires GetParam(q, name).Some?
    ensures GetParam(ReplaceFirst(q, name, value, false), name) == Some(value)
  {
    if q[0].0 != name {
      ReplaceFirstReads(q[1..], name, value);
    }
  }

  /** `get` after `set` gives the value set, and no other parameter changes. */
  lemma SetThenGet(q: Query, name: string, value: string)
    ensures GetParam(SetParam(q, name, value), name) == Some(value)
    ensures forall other :: other != name ==> GetParam(SetParam(q, name, value), other) == GetParam(q, other)
    ensures forall k :: 0 <= k < |SetParam(q, name, value)| && SetParam(q, name, value)[k].0 == name ==>
              SetParam(q, name, value)[k].1 == value
  {
    if GetParam(q, name).None? {
      forall other | other != name
        ensures GetParam(q + [(name, value)], other) == GetParam(q, other)
      {
        AppendKeepsGet(q, (name, value), other);
      }
      AppendedRead(q, name, value);
    } else {
      ReplaceFirstReads(q, name, value);
      forall other | other != name
        ensures GetParam(ReplaceFirst(q, name, value, false), other) == GetParam(q, other)
      {
        ReplaceFirstKeepsOthers(q, name, value, false, other);
      }
    }
  }

  lemma {:induction false} AppendKeepsGet(q: Query, p: (string, string), other: string)
    requires p.0 != other
    ensures GetParam(q + [p], other) == GetParam(q, other)
  {
    if q != [] {
      assert (q + [p])[1..] == q[1..] + [p];
      AppendKeepsGet(q[1..], p, other);
    }
  }

  lemma {:induction false} AppendedRead(q: Query, name: string, value: string)
    requires GetParam(q, name).None?
    ensures GetParam(q + [(name, value)], name) == Some(value)
  {
    if q != [] {
      assert (q + [(name, value)])[1..] == q[1..] + [(name, value)];
      assert q[0].0 != name;
      AppendedRead(q[1..], name, value);
    }
  }

  // ---------------------------------------------------------------------------
  // openVacancy / openVacancyByQueryParameter

  /** What `openVacancy` leaves in `.need`: one section per `inside` entry, in order. */
  function Contents(v: Vacancy): (r: seq<Section>)
    ensures |r| == |v.inside|
    ensures forall j :: 0 <= j < |r| ==> r[j] == v.inside[j].1
  {
    seq(|v.inside|, j requires 0 <= j < |v.inside| => v.inside[j].1)
  }

  /** The panel after `openVacancy` shows `v`: its sections replace the old ones, and
      the title and description keys are written once per section, so an entry with
      no sections leaves them as they were. */
  function Shown(d: Detail, v: Vacancy): Detail {
    Detail(Contents(v),
           if v.inside != [] then Some(v.position) else d.titleKey,
           if v.inside != [] then Some(v.description) else d.descriptionKey,
           true)
  }

  /** `+vacancy` for the decimal strings the click handler writes; any other text
      matches no id. */
  function ParamId(p: string): Option<nat> {
    ParseNat(p)
  }

  /** Whether `data[item].id === +vacancy && !data[item].closeVac`. */
  predicate Opens(v: Vacancy, n: nat) {
    v.id == n && !v.closeVac
  }

  /** The entries `openVacancyByQueryParameter` opens, in table order. */
  function Matching(table: Table, n: nat): (r: seq<Vacancy>)
    ensures |r| <= |table|
    ensures forall v :: v in r ==> Opens(v, n)
  {
    if table == [] then []
    else
      var last := table[|table| - 1].1;
      Matching(table[..|table| - 1], n) + (if Opens(last, n) then [last] else [])
  }

  /** The panel after opening each of `vs` in turn. */
  function ShownAll(d: Detail, vs: seq<Vacancy>): Detail {
    if vs == [] then d else Shown(ShownAll(d, vs[..|vs| - 1]), vs[|vs| - 1])
  }

  /** With distinct ids, an open entry is the only one the parameter matches. */
  lemma {:induction false} MatchingUnique(table: Table, k: nat)
    requires IdsUnique(table) && k < |table| && !table[k].1.closeVac
    ensures Matching(table, table[k].1.id) == [table[k].1]
  {
    var n := table[k].1.id;
    var init := table[..|table| - 1];
    assert IdsUnique(init);
    if k == |table| - 1 {
      NoneMatching(init, n);
    } else {
      assert init[k] == table[k];
      MatchingUnique(init, k);
      assert table[|table| - 1].1.id != n;
    }
  }

  lemma {:induction false} NoneMatching(table: Table, n: nat)
    requires forall k :: 0 <= k < |table| ==> table[k].1.id != n
    ensures Matching(table, n) == []
  {
    if table != [] {
      var init := table[..|table| - 1];
      assert forall k :: 0 <= k < |init| ==> init[k] == table[k];
      NoneMatching(init, n);
    }
  }

  /** The page's catalog state: the two lists, the detail panel and the URL. */
  class Page {
    /** The `data` table the page was built with. */
    const table: Table
    var cards: seq<Card>
    var rows: seq<Row>
    var detail: Detail
    var path: string
    var query: Query

    constructor (table: Table, path: string, query: Query)
      ensures this.table == table && this.path == path && this.query == query
      ensures cards == [] && rows == [] && detail == Detail([], None, None, false)
    {
      this.table := table;
      this.path := path;
      this.query := query;
      cards := [];
      rows := [];
      detail := Detail([], None, None, false);
    }

    /** `renderVacancies`: one numbered card per featured entry, then one row per
        entry, each appended after what is already there. */
    method RenderVacancies()
      modifies this`cards, this`rows
      ensures |cards| == |old(cards)| + |ActiveVacancies(table)| && cards[..|old(cards)|] == old(cards)
      ensures forall i :: 0 <= i < |ActiveVacancies(table)| ==>
                cards[|old(cards)| + i] == CardOf(ActiveVacancies(table)[i], i + 1)
      ensures |rows| == |old(rows)| + |table| && rows[..|old(rows)|] == old(rows)
      ensures forall k :: 0 <= k < |table| ==> rows[|old(rows)| + k] == RowOf(table[k].1)
    {
      RenderFeatured();
      RenderList();
    }

    /** The first `forEach` of `renderVacancies`: the featured strip, numbered from 1. */
    method RenderFeatured()
      modifies this`cards
      ensures |cards| == |old(cards)| + |ActiveVacancies(table)| && cards[..|old(cards)|] == old(cards)
      ensures forall i :: 0 <= i < |ActiveVacancies(table)| ==>
                cards[|old(cards)| + i] == CardOf(ActiveVacancies(table)[i], i + 1)
    {
      var active := ActiveVacancies(table);
      var i := 0;
      while i < |active|
        invariant 0 <= i <= |active|
        invariant |cards| == |old(cards)| + i && cards[..|old(cards)|] == old(cards)
        invariant forall j :: 0 <= j < i ==> cards[|old(cards)| + j] == CardOf(active[j], j + 1)
      {
        cards := cards + [CardOf(active[i], i + 1)];
        i := i + 1;
      }
    }

    /** The second `forEach` of `renderVacancies`: one row per entry, closed ones
        flagged. */
    method RenderList()
      modifies this`rows
      ensures |rows| == |old(rows)| + |table| && rows[..|old(rows)|] == old(rows)
      ensures forall k :: 0 <= k < |table| ==> rows[|old(rows)| + k] == RowOf(table[k].1)
    {
      var k := 0;
      while k < |table|
        invariant 0 <= k <= |table|
        invariant |rows| == |old(rows)| + k && rows[..|old(rows)|] == old(rows)
        invariant forall j :: 0 <= j < k ==> rows[|old(rows)| + j] == RowOf(table[j].1)
      {
        rows := rows + [RowOf(table[k].1)];
        k := k + 1;
      }
    }

    /** The body of `openVacancy` once the entry is found: empty `.need`, append each
        section, open the panel. */
    method Show(v: Vacancy)
      modifies this`detail
      ensures detail == Shown(old(detail), v)
    {
      detail := detail.(need := []);
      var k := 0;
      while k < |v.inside|
        invariant 0 <= k <= |v.inside|
        invariant |detail.need| == k
        invariant forall j :: 0 <= j < k ==> detail.need[j] == v.inside[j].1
        invariant detail.open == old(detail).open
        invariant k == 0 ==> detail.titleKey == old(detail).titleKey && detail.descriptionKey == old(detail).descriptionKey
        invariant k > 0 ==> detail.titleKey == Some(v.position) && detail.descriptionKey == Some(v.description)
      {
        detail := detail.(titleKey := Some(v.position), descriptionKey := Some(v.description));
        detail := detail.(need := detail.need + [v.inside[k].1]);
        k := k + 1;
      }
      detail := detail.(open := true);
    }

    /** `openVacancy(key, byClick)`. A key with no entry throws: by a click, at
        `data[key].id`, before anything changes; otherwise after `.need` is emptied.
        By a click, the query string gets `vacancy=<id>` first. */
    method OpenVacancy(key: string, byClick: bool) returns (threw: bool)
      modifies this`detail, this`query
      ensures threw <==> Find(table, key).None?
      ensures threw ==> query == old(query)
      ensures threw ==> detail == if byClick then old(detail) else old(detail).(need := [])
      ensures !threw ==> detail == Shown(old(detail), Find(table, key).value)
      ensures !threw ==> query == if byClick then SetParam(old(query), "vacancy", NatToString(Find(table, key).value.id))
                                  else old(query)
    {
      var found := Find(table, key);
      if found.None? {
        if !byClick {
          detail := detail.(need := []);
        }
        return true;
      }
      if byClick {
        query := SetParam(query, "vacancy", NatToString(found.value.id));
      }
      Show(found.value);
      threw := false;
    }

    /** `openVacancyByQueryParameter`: with a non-empty `vacancy` parameter, open every
        entry with that id that is not closed, in table order. */
    method OpenByQueryParameter()
      requires KeysUnique(table)
      modifies this`detail, this`query
      ensures query == old(query)
      ensures var p := GetParam(query, "vacancy");
              detail == if p.None? || p.value == "" || ParamId(p.value).None? then old(detail)
                        else ShownAll(old(detail), Matching(table, ParamId(p.value).value))
    {
      var p := GetParam(query, "vacancy");
      if p.None? || p.value == "" {
        return;
      }
      var n := ParamId(p.value);
      var i := 0;
      while i < |table|
        invariant 0 <= i <= |table|
        invariant detail == if n.None? then old(detail) else ShownAll(old(detail), Matching(table[..i], n.value))
        invariant query == old(query)
      {
        assert table[..i + 1][..i] == table[..i];
        if n.Some? && Opens(table[i].1, n.value) {
          FindAt(table, i);
          var _ := OpenVacancy(table[i].0, false);
          var before := Matching(table[..i], n.value);
          assert Matching(table[..i + 1], n.value) == before + [table[i].1];
          assert (before + [table[i].1])[..|before|] == before;
        } else if n.Some? {
          assert Matching(table[..i + 1], n.value) == Matching(table[..i], n.value);
        }
        i := i + 1;
      }
      assert table[..|table|] == table;
    }

    /** The `.close-desc` handler: the URL goes back to `/` with no query, `.need` is
        emptied and the panel closed. */
    method CloseDesc()
      modifies this`detail, this`path, this`query
      ensures path == "/" && query == [] && GetParam(query, "vacancy").None?
      ensures detail == old(detail).(need := [], open := false)
    {
      path := "/";
      query := [];
      detail := detail.(need := [], open := false);
    }
  }

  /** Clicking an open entry and then loading the URL it wrote shows the same
      sections: the parameter reads back as the entry's id, and with distinct ids no
      other entry matches it. */
  lemma ClickThenReload(table: Table, k: nat, q: Query, d: Detail)
    requires IdsUnique(table) && k < |table| && !table[k].1.closeVac
    ensures var v := table[k].1;
            var p := GetParam(SetParam(q, "vacancy", NatToString(v.id)), "vacancy");
            && p == Some(NatToString(v.id)) && p.value != ""
            && ParamId(p.value) == Some(v.id)
            && ShownAll(d, Matching(table, v.id)) == Shown(d, v)
  {
    var v := table[k].1;
    SetThenGet(q, "vacancy", NatToString(v.id));
    ParseNatToString(v.id);
    MatchingUnique(table, k);
    assert [v][..0] == [];
  }
}
