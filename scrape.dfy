/**
 * Term extraction from an item or entry page (src/scrape.ts): labelled data
 * rows become an ordered `Terms` map from category name to a non-empty list
 * of terms, each a plain string or an English/Japanese pair, followed by the
 * contextual rules that add terms implied by the item's category.
 *
 * The page itself is abstracted: a row's value node is given by its displayed
 * text, the leaf elements the category selector finds in it (with their
 * `switch` attribute), and its child nodes by node name.
 */
module Scrape {
  import opened Wrappers
  import opened Records
  import opened Text

  /** `ItemText`: a plain string, or a translation pair. */
  datatype Term = Plain(text: string) | Pair(en: string, jp: string)

  /** Category name to terms, in insertion order. */
  type Terms = Record<seq<Term>>

  /** A leaf element: its displayed text and its `switch` attribute, if any. */
  datatype Leaf = Leaf(text: string, switch: Option<string>)

  /** A child node of a name-list value, by node name. */
  datatype ChildNode = Br | TextNode(value: string) | Small | OtherElement

  /** The `.data-value` element of a row. */
  datatype RowValue = RowValue(text: string, leaves: seq<Leaf>, childNodes: seq<ChildNode>)

  /** A `.data-field` row: its `.data-label` text and its value, either possibly missing. */
  datatype DataField = DataField(key: Option<string>, value: Option<RowValue>)

  /** Row label to value node. */
  type Rows = Record<RowValue>

  /** Every category present maps to at least one term, and no category occurs twice. */
  ghost predicate WellFormed(terms: Terms)
  {
    && Keyed(terms)
    && forall k :: Lookup(terms, k).Some? ==> Lookup(terms, k).value != []
  }

  // ---------------------------------------------------------------------------
  // Rows

  /** A field that yields a row under `name`. */
  predicate Supplies(f: DataField, name: string)
  {
    f.key == Some(name) && f.value.Some?
  }

  /** The rows `scanRows` collects from the fields seen so far. */
  function RowsOf(fields: seq<DataField>): Rows
  {
    if fields == [] then []
    else
      var rows := RowsOf(fields[..|fields| - 1]);
      var f := fields[|fields| - 1];
      if f.key.Some? && f.value.Some? then Put(rows, f.key.value, f.value.value) else rows
  }

  /** `scanRows`: fields missing a label or a value are skipped, and a later label overwrites. */
  method ScanRows(fields: seq<DataField>) returns (rows: Rows)
    ensures rows == RowsOf(fields)
  {
    rows := [];
    for i := 0 to |fields|
      invariant rows == RowsOf(fields[..i])
    {
      assert fields[..i + 1][..i] == fields[..i];
      var f := fields[i];
      if f.key.Some? && f.value.Some? {
        rows := Put(rows, f.key.value, f.value.value);
      }
    }
    assert fields[..|fields|] == fields;
  }

  /**
   * The row found under a label is the value of the LAST field that supplies
   * that label; there is none exactly when no field supplies it.
   */
  lemma {:induction false} RowsOfLastWins(fields: seq<DataField>, name: string)
    ensures Lookup(RowsOf(fields), name).None? <==>
      forall i :: 0 <= i < |fields| ==> !Supplies(fields[i], name)
    ensures Lookup(RowsOf(fields), name).Some? ==>
      exists i :: 0 <= i < |fields| && fields[i] == DataField(Some(name), Lookup(RowsOf(fields), name))
        && forall j :: i < j < |fields| ==> !Supplies(fields[j], name)
  {
    if fields != [] {
      var n := |fields| - 1;
      var init := fields[..n];
      RowsOfLastWins(init, name);
      assert forall i :: 0 <= i < n ==> init[i] == fields[i];
      if !Supplies(fields[n], name) {
        assert Lookup(RowsOf(fields), name) == Lookup(RowsOf(init), name);
      }
    }
  }

  /** No label occurs twice among the rows. */
  lemma {:induction false} RowsOfKeyed(fields: seq<DataField>)
    ensures Keyed(RowsOf(fields))
  {
    if fields != [] {
      var n := |fields| - 1;
      RowsOfKeyed(fields[..n]);
      var f := fields[n];
      if f.key.Some? && f.value.Some? {
        PutKeyed(RowsOf(fields[..n]), f.key.value, f.value.value);
      }
    }
  }

  // ---------------------------------------------------------------------------
  // Leaf scraping (createTextScraper)

  /**
   * The page shows Japanese when it has a language switch whose text is not
   * "Japanese" (the switch offers the other language); without one it is
   * taken to show English.
   */
  function IsJapanese(languageSwitch: Option<string>): bool
  {
    languageSwitch.Some? && languageSwitch.value != "Japanese"
  }

  /**
   * The term for one leaf: the displayed text alone when the `switch`
   * attribute is missing or empty, otherwise a pair whose Japanese side is
   * whichever of the two texts is in Japanese.
   */
  function ScrapeText(leaf: Leaf, isJp: bool): (r: Term)
    ensures r.Plain? <==> leaf.switch.None? || leaf.switch == Some("")
    ensures r.Plain? ==> r.text == leaf.text
    ensures r.Pair? ==> leaf.text == (if isJp then r.jp else r.en)
    ensures r.Pair? ==> leaf.switch == Some(if isJp then r.en else r.jp)
  {
    match leaf.switch
    case None => Plain(leaf.text)
    case Some(switched) =>
      if switched == "" then Plain(leaf.text)
      else if isJp then Pair(switched, leaf.text)
      else Pair(leaf.text, switched)
  }

  /**
   * A bilingual leaf gives the same pair whichever language the page shows:
   * the displayed text and the `switch` attribute trade places, and so does
   * the page's language.
   */
  lemma LeafPairIndependentOfLanguage(en: string, jp: string)
    requires en != "" && jp != ""
    ensures ScrapeText(Leaf(jp, Some(en)), true) == Pair(en, jp)
    ensures ScrapeText(Leaf(en, Some(jp)), false) == Pair(en, jp)
  {
  }

  /** The terms of a row's leaf elements, in document order. */
  function LeafTerms(row: RowValue, isJp: bool): seq<Term>
  {
    seq(|row.leaves|, i requires 0 <= i < |row.leaves| => ScrapeText(row.leaves[i], isJp))
  }

  /** Wraps each term as a defined value. */
  function Somes(ts: seq<Term>): seq<Option<Term>>
  {
    seq(|ts|, i requires 0 <= i < |ts| => Some(ts[i]))
  }

  // ---------------------------------------------------------------------------
  // setCategory

  /** `v.filter(x => x !== undefined)`. */
  function Defined(v: seq<Option<Term>>): seq<Term>
  {
    if v == [] then []
    else (if v[0].Some? then [v[0].value] else []) + Defined(v[1..])
  }

  /** The filter keeps every defined value in order, so it is empty exactly when all are undefined. */
  lemma {:induction false} DefinedOfSomes(ts: seq<Term>)
    ensures Defined(Somes(ts)) == ts
  {
    if ts != [] {
      DefinedOfSomes(ts[1..]);
      assert Somes(ts)[1..] == Somes(ts[1..]);
    }
  }

  /** `setCategory(k, v)`: the defined values of `v` replace category `k`, unless there are none. */
  function WithCategory(terms: Terms, k: string, v: seq<Option<Term>>): (r: Terms)
    ensures Lookup(r, k) == if Defined(v) == [] then Lookup(terms, k) else Some(Defined(v))
    ensures forall k' :: k' != k ==> Lookup(r, k') == Lookup(terms, k')
  {
    var defined := Defined(v);
    if defined == [] then terms else Put(terms, k, defined)
  }

  /** `setCategory` never stores an empty list and never duplicates a category. */
  lemma WithCategoryWellFormed(terms: Terms, k: string, v: seq<Option<Term>>)
    requires WellFormed(terms)
    ensures WellFormed(WithCategory(terms, k, v))
  {
    if Defined(v) != [] {
      PutKeyed(terms, k, Defined(v));
    }
  }

  // ---------------------------------------------------------------------------
  // Name, list categories, name lists

  /** "Name" and "Original name" merge into one pair; either alone is a plain term. */
  function WithName(terms: Terms, rows: Rows): Terms
  {
    match (Lookup(rows, "Name"), Lookup(rows, "Original name"))
    case (Some(name), Some(original)) => WithCategory(terms, "Name", [Some(Pair(name.text, original.text))])
    case (Some(name), None) => WithCategory(terms, "Name", [Some(Plain(name.text))])
    case (None, Some(original)) => WithCategory(terms, "Name", [Some(Plain(original.text))])
    case (None, None) => terms
  }

  /** Row labels that feed one category; the first is the category's own name. */
  const CategoryKeys: seq<seq<string>> := [
    ["Origins", "Origin"],
    ["Characters", "Character"],
    ["Version"],
    ["Companies", "Company"],
    ["Classifications", "Classification"],
    ["Title"]
  ]

  /** The labels of one group, each present one overwriting `canonical` with its leaf terms. */
  function WithLabels(terms: Terms, rows: Rows, canonical: string, labels: seq<string>, isJp: bool): Terms
  {
    if labels == [] then terms
    else
      var t := WithLabels(terms, rows, canonical, labels[..|labels| - 1], isJp);
      match Lookup(rows, labels[|labels| - 1])
      case None => t
      case Some(row) => WithCategory(t, canonical, Somes(LeafTerms(row, isJp)))
  }

  /** All groups in order. */
  function WithGroups(terms: Terms, rows: Rows, groups: seq<seq<string>>, isJp: bool): Terms
    requires forall g :: 0 <= g < |groups| ==> groups[g] != []
  {
    if groups == [] then terms
    else
      var keys := groups[|groups| - 1];
      WithLabels(WithGroups(terms, rows, groups[..|groups| - 1], isJp), rows, keys[0], keys, isJp)
  }

  /** The categories read as name lists. */
  const NameListKeys: seq<string> := ["Aliases", "Adaptations/Translations"]

  /** What one child node contributes to a name list. */
  function NodeTerms(n: ChildNode): seq<Term>
  {
    if n.TextNode? then [Plain(Trim(n.value))] else []
  }

  /** The trimmed value of every text node, in order. */
  function TrimmedTexts(nodes: seq<ChildNode>): seq<Term>
  {
    if nodes == [] then [] else TrimmedTexts(nodes[..|nodes| - 1]) + NodeTerms(nodes[|nodes| - 1])
  }

  /** A name list has at most one entry per child node. */
  lemma {:induction false} TrimmedTextsBound(nodes: seq<ChildNode>)
    ensures |TrimmedTexts(nodes)| <= |nodes|
  {
    if nodes != [] {
      TrimmedTextsBound(nodes[..|nodes| - 1]);
    }
  }

  /** One more node adds its own contribution: the step the loop of `ScrapeNameList` takes. */
  lemma TrimmedTextsStep(nodes: seq<ChildNode>, i: nat)
    requires i < |nodes|
    ensures TrimmedTexts(nodes[..i + 1]) == TrimmedTexts(nodes[..i]) + NodeTerms(nodes[i])
  {
    assert nodes[..i + 1][..i] == nodes[..i];
  }

  /**
   * `scrapeNameList`: line breaks are skipped, each text node gives its
   * trimmed text, a `<small>` note right after a text node is passed over
   * with it, and other elements are ignored. So the list is exactly the
   * trimmed text nodes, in order.
   */
  method ScrapeNameList(nodes: seq<ChildNode>) returns (names: seq<Term>)
    ensures names == TrimmedTexts(nodes)
  {
    names := [];
    var i := 0;
    while i < |nodes|
      invariant 0 <= i <= |nodes|
      invariant names == TrimmedTexts(nodes[..i])
    {
      TrimmedTextsStep(nodes, i);
      var node := nodes[i];
      if node.TextNode? {
        names := names + [Plain(Trim(node.value))];
      }
      i := i + 1;
      if node.TextNode? && i < |nodes| && nodes[i] == Small {
        TrimmedTextsStep(nodes, i);
        i := i + 1;
      }
    }
    assert nodes[..i] == nodes;
  }

  /** Name lists of more than one entry become categories. */
  function WithNameLists(terms: Terms, rows: Rows, keys: seq<string>): Terms
  {
    if keys == [] then terms
    else
      var t := WithNameLists(terms, rows, keys[..|keys| - 1]);
      var key := keys[|keys| - 1];
      match Lookup(rows, key)
      case None => t
      case Some(row) =>
        var list := TrimmedTexts(row.childNodes);
        if |list| > 1 then WithCategory(t, key, Somes(list)) else t
  }

  // ---------------------------------------------------------------------------
  // Contextual terms

  /** `hasTerms` matches a plain term by its text and a pair by either side. */
  predicate Mentions(t: Term, matchTerms: seq<string>)
  {
    match t
    case Plain(s) => s in matchTerms
    case Pair(en, jp) => en in matchTerms || jp in matchTerms
  }

  /** Some term of `ts` is mentioned. */
  function AnyMentions(ts: seq<Term>, matchTerms: seq<string>): bool
  {
    ts != [] && (Mentions(ts[0], matchTerms) || AnyMentions(ts[1..], matchTerms))
  }

  /** `hasTerms`: false for a missing category, else whether one of its terms is mentioned. */
  function HasTerms(terms: Terms, category: string, matchTerms: seq<string>): bool
  {
    match Lookup(terms, category)
    case None => false
    case Some(ts) => AnyMentions(ts, matchTerms)
  }

  /** `AnyMentions` is the search it stands for: some index holds a mentioned term. */
  lemma {:induction false} AnyMentionsExists(ts: seq<Term>, matchTerms: seq<string>)
    ensures AnyMentions(ts, matchTerms) <==> exists i :: 0 <= i < |ts| && Mentions(ts[i], matchTerms)
  {
    if ts != [] {
      AnyMentionsExists(ts[1..], matchTerms);
      if exists i :: 0 <= i < |ts| && Mentions(ts[i], matchTerms) {
        var i :| 0 <= i < |ts| && Mentions(ts[i], matchTerms);
        if i > 0 {
          assert ts[1..][i - 1] == ts[i];
        }
      }
      if AnyMentions(ts[1..], matchTerms) && !Mentions(ts[0], matchTerms) {
        var i :| 0 <= i < |ts[1..]| && Mentions(ts[1..][i], matchTerms);
        assert ts[i + 1] == ts[1..][i];
      }
    }
  }

  /**
   * `hasTerms` is false when the category is absent, and otherwise true
   * exactly when some plain term is in the match set or some pair has its
   * English or its Japanese side in it.
   */
  lemma HasTermsMeans(terms: Terms, category: string, matchTerms: seq<string>)
    ensures HasTerms(terms, category, matchTerms) <==>
      (Lookup(terms, category).Some? &&
        exists i :: 0 <= i < |Lookup(terms, category).value| &&
          match Lookup(terms, category).value[i]
          case Plain(s) => s in matchTerms
          case Pair(en, jp) => en in matchTerms || jp in matchTerms)
  {
    if Lookup(terms, category).Some? {
      var ts := Lookup(terms, category).value;
      AnyMentionsExists(ts, matchTerms);
      assert forall i :: 0 <= i < |ts| ==> (Mentions(ts[i], matchTerms) <==>
        match ts[i] case Plain(s) => s in matchTerms case Pair(en, jp) => en in matchTerms || jp in matchTerms);
    }
  }

  const FigureCategories: seq<string> := ["Prepainted", "Action/Dolls", "Trading", "Garage Kits", "Model Kits"]
  const Figure: Term := Pair("Figure", "フィギュア")
  const Keychain: Term := Pair("Keychain", "キーチェーン")
  const Strap: Term := Pair("Strap", "ストラップ")
  const ProductTypes: seq<Term> := [Figure, Keychain, Strap]

  /** `terms[k].push(...extra)`; a missing category is left alone. */
  function Append(terms: Terms, k: string, extra: seq<Term>): Terms
  {
    match Lookup(terms, k)
    case None => terms
    case Some(ts) => Put(terms, k, ts + extra)
  }

  /** One appending rule of `addContextualTerms`: Category gets `extra` when it mentions one of `matchTerms`. */
  function AppendIfMentioned(terms: Terms, matchTerms: seq<string>, extra: seq<Term>): Terms
  {
    if HasTerms(terms, "Category", matchTerms) then Append(terms, "Category", extra) else terms
  }

  /** `addContextualTerms`, the three rules applied one after the other. */
  function WithContextualTerms(terms: Terms): Terms
  {
    SetProductType(CategoryRules(terms))
  }

  /** The last rule: Category mentioning "Characters" sets "Product Type" to the three fixed pairs. */
  function SetProductType(terms: Terms): Terms
  {
    if HasTerms(terms, "Category", ["Characters"]) then Put(terms, "Product Type", ProductTypes) else terms
  }

  // ---------------------------------------------------------------------------
  // scrapeTerms

  /** The `Terms` of a page with these rows. */
  function Scrape(rows: Rows, isJp: bool): Terms
  {
    WithContextualTerms(Listed(rows, isJp))
  }

  /** The "Category" row's text becomes the category of that name. */
  function WithCategoryRow(terms: Terms, rows: Rows): Terms
  {
    match Lookup(rows, "Category")
    case None => terms
    case Some(row) => WithCategory(terms, "Category", [Some(Plain(row.text))])
  }

  /** The categories read from the rows, before the contextual rules. */
  function Listed(rows: Rows, isJp: bool): Terms
  {
    WithNameLists(WithGroups(Header(rows), rows, CategoryKeys, isJp), rows, NameListKeys)
  }

  /** The `terms` record `scrapeTerms` fills in place. */
  class TermMap {
    var entries: Terms

    constructor ()
      ensures entries == []
    {
      entries := [];
    }

    /** `setCategory`. */
    method SetCategory(k: string, v: seq<Option<Term>>)
      modifies this
      ensures entries == WithCategory(old(entries), k, v)
    {
      var defined := Defined(v);
      if defined != [] {
        entries := Put(entries, k, defined);
      }
    }

    /** `addContextualTerms(terms)`. */
    method AddContextualTerms()
      modifies this
      ensures entries == WithContextualTerms(old(entries))
    {
      if HasTerms(entries, "Category", FigureCategories) {
        entries := Append(entries, "Category", [Figure]);
      }
      if HasTerms(entries, "Category", ["Hanged up"]) {
        entries := Append(entries, "Category", [Keychain, Strap]);
      }
      if HasTerms(entries, "Category", ["Characters"]) {
        entries := Put(entries, "Product Type", ProductTypes);
      }
    }
  }

  /** The "Category" and name steps of `scrapeTerms`. */
  method ScrapeHeader(terms: TermMap, rows: Rows)
    modifies terms
    ensures terms.entries == WithName(WithCategoryRow(old(terms.entries), rows), rows)
  {
    match Lookup(rows, "Category") {
      case None =>
      case Some(row) => terms.SetCategory("Category", [Some(Plain(row.text))]);
    }
    var name, originalName := Lookup(rows, "Name"), Lookup(rows, "Original name");
    if name.Some? && originalName.Some? {
      terms.SetCategory("Name", [Some(Pair(name.value.text, originalName.value.text))]);
    } else if name.Some? {
      terms.SetCategory("Name", [Some(Plain(name.value.text))]);
    } else if originalName.Some? {
      terms.SetCategory("Name", [Some(Plain(originalName.value.text))]);
    }
  }

  /** One group of `categoryKeys`: every present label overwrites the group's category. */
  method ScrapeGroup(terms: TermMap, rows: Rows, keys: seq<string>, isJp: bool)
    requires keys != []
    modifies terms
    ensures terms.entries == WithLabels(old(terms.entries), rows, keys[0], keys, isJp)
  {
    var canonicalKey := keys[0];
    for j := 0 to |keys|
      invariant terms.entries == WithLabels(old(terms.entries), rows, canonicalKey, keys[..j], isJp)
    {
      assert keys[..j + 1][..j] == keys[..j];
      match Lookup(rows, keys[j]) {
        case None =>
        case Some(row) => terms.SetCategory(canonicalKey, Somes(LeafTerms(row, isJp)));
      }
    }
    assert keys[..|keys|] == keys;
  }

  /** The loop over `categoryKeys`. */
  method ScrapeGroups(terms: TermMap, rows: Rows, isJp: bool)
    modifies terms
    ensures terms.entries == WithGroups(old(terms.entries), rows, CategoryKeys, isJp)
  {
    for i := 0 to |CategoryKeys|
      invariant terms.entries == WithGroups(old(terms.entries), rows, CategoryKeys[..i], isJp)
    {
      assert CategoryKeys[..i + 1][..i] == CategoryKeys[..i];
      ScrapeGroup(terms, rows, CategoryKeys[i], isJp);
    }
    assert CategoryKeys[..|CategoryKeys|] == CategoryKeys;
  }

  /** The loop over the name-list categories. */
  method ScrapeNameLists(terms: TermMap, rows: Rows)
    modifies terms
    ensures terms.entries == WithNameLists(old(terms.entries), rows, NameListKeys)
  {
    for i := 0 to |NameListKeys|
      invariant terms.entries == WithNameLists(old(terms.entries), rows, NameListKeys[..i])
    {
      assert NameListKeys[..i + 1][..i] == NameListKeys[..i];
      var nameListKey := NameListKeys[i];
      match Lookup(rows, nameListKey) {
        case None =>
        case Some(row) =>
          var list := ScrapeNameList(row.childNodes);
          if |list| > 1 {
            terms.SetCategory(nameListKey, Somes(list));
          }
      }
    }
    assert NameListKeys[..|NameListKeys|] == NameListKeys;
  }

  /** `scrapeTerms`: reads the language switch and the rows, and fills a fresh `Terms`. */
  method ScrapeTerms(fields: seq<DataField>, languageSwitch: Option<string>) returns (terms: TermMap)
    ensures fresh(terms)
    ensures terms.entries == Scrape(RowsOf(fields), IsJapanese(languageSwitch))
  {
    var isJp := IsJapanese(languageSwitch);
    var rows := ScanRows(fields);
    terms := new TermMap();
    ScrapeHeader(terms, rows);
    ScrapeGroups(terms, rows, isJp);
    ScrapeNameLists(terms, rows);
    terms.AddContextualTerms();
  }

  // ---------------------------------------------------------------------------
  // Aliased labels: the last present, non-empty label wins

  /** Label `name` is present and its leaf terms are non-empty, so `setCategory` stores them. */
  predicate Contributes(rows: Rows, name: string, isJp: bool)
  {
    Lookup(rows, name).Some? && LeafTerms(Lookup(rows, name).value, isJp) != []
  }

  /** The terms of the last label of `labels` that contributes, if any. */
  function LastContribution(rows: Rows, labels: seq<string>, isJp: bool): Option<seq<Term>>
  {
    if labels == [] then None
    else if Contributes(rows, labels[|labels| - 1], isJp) then
      Some(LeafTerms(Lookup(rows, labels[|labels| - 1]).value, isJp))
    else LastContribution(rows, labels[..|labels| - 1], isJp)
  }

  /** `LastContribution` is absent exactly when no label contributes. */
  lemma {:induction false} LastContributionNone(rows: Rows, labels: seq<string>, isJp: bool)
    ensures LastContribution(rows, labels, isJp).None? <==>
      forall j :: 0 <= j < |labels| ==> !Contributes(rows, labels[j], isJp)
  {
    if labels != [] {
      var init := labels[..|labels| - 1];
      LastContributionNone(rows, init, isJp);
      assert forall j :: 0 <= j < |init| ==> labels[j] == init[j];
    }
  }

  /** `LastContribution` comes from a contributing label with no contributing label after it. */
  lemma {:induction false} LastContributionIsLast(rows: Rows, labels: seq<string>, isJp: bool)
    requires LastContribution(rows, labels, isJp).Some?
    ensures exists j :: (0 <= j < |labels| && Contributes(rows, labels[j], isJp) &&
      LastContribution(rows, labels, isJp).value == LeafTerms(Lookup(rows, labels[j]).value, isJp) &&
      forall j' :: j < j' < |labels| ==> !Contributes(rows, labels[j'], isJp))
  {
    var n := |labels| - 1;
    if !Contributes(rows, labels[n], isJp) {
      var init := labels[..n];
      LastContributionIsLast(rows, init, isJp);
      var j :| 0 <= j < |init| && Contributes(rows, init[j], isJp) &&
        LastContribution(rows, init, isJp).value == LeafTerms(Lookup(rows, init[j]).value, isJp) &&
        forall j' :: j < j' < |init| ==> !Contributes(rows, init[j'], isJp);
      assert labels[j] == init[j];
      assert forall j' :: j < j' < n ==> labels[j'] == init[j'];
    }
  }

  /** The labels of a group only write the group's category. */
  lemma {:induction false} WithLabelsFrame(terms: Terms, rows: Rows, canonical: string, labels: seq<string>, isJp: bool, k: string)
    requires k != canonical
    ensures Lookup(WithLabels(terms, rows, canonical, labels, isJp), k) == Lookup(terms, k)
  {
    if labels != [] {
      WithLabelsFrame(terms, rows, canonical, labels[..|labels| - 1], isJp, k);
    }
  }

  /** Each present label replaces the category rather than appending to it, so the last contribution wins. */
  lemma {:induction false} WithLabelsLastWins(terms: Terms, rows: Rows, canonical: string, labels: seq<string>, isJp: bool)
    ensures Lookup(WithLabels(terms, rows, canonical, labels, isJp), canonical) ==
      if LastContribution(rows, labels, isJp).Some? then LastContribution(rows, labels, isJp) else Lookup(terms, canonical)
  {
    if labels != [] {
      WithLabelsLastWins(terms, rows, canonical, labels[..|labels| - 1], isJp);
      match Lookup(rows, labels[|labels| - 1]) {
        case None =>
        case Some(row) => DefinedOfSomes(LeafTerms(row, isJp));
      }
    }
  }

  /** A key that heads no group is untouched by the groups. */
  lemma {:induction false} WithGroupsFrame(terms: Terms, rows: Rows, groups: seq<seq<string>>, isJp: bool, k: string)
    requires forall g :: 0 <= g < |groups| ==> groups[g] != [] && groups[g][0] != k
    ensures Lookup(WithGroups(terms, rows, groups, isJp), k) == Lookup(terms, k)
  {
    if groups != [] {
      var last := groups[|groups| - 1];
      WithGroupsFrame(terms, rows, groups[..|groups| - 1], isJp, k);
      WithLabelsFrame(WithGroups(terms, rows, groups[..|groups| - 1], isJp), rows, last[0], last, isJp, k);
    }
  }

  /** With distinct group heads, each group's category is decided by its own labels alone. */
  lemma {:induction false} WithGroupsLookup(terms: Terms, rows: Rows, groups: seq<seq<string>>, isJp: bool, g: nat)
    requires forall h :: 0 <= h < |groups| ==> groups[h] != []
    requires forall h, h' :: 0 <= h < h' < |groups| ==> groups[h][0] != groups[h'][0]
    requires g < |groups|
    ensures Lookup(WithGroups(terms, rows, groups, isJp), groups[g][0]) ==
      if LastContribution(rows, groups[g], isJp).Some? then LastContribution(rows, groups[g], isJp)
      else Lookup(terms, groups[g][0])
  {
    var init := groups[..|groups| - 1];
    var last := groups[|groups| - 1];
    var before := WithGroups(terms, rows, init, isJp);
    if g == |groups| - 1 {
      WithGroupsFrame(terms, rows, init, isJp, last[0]);
      WithLabelsLastWins(before, rows, last[0], last, isJp);
    } else {
      WithGroupsLookup(terms, rows, init, isJp, g);
      WithLabelsFrame(before, rows, last[0], last, isJp, groups[g][0]);
    }
  }

  // ---------------------------------------------------------------------------
  // Name lists

  /** Only the name-list keys are written by the name-list step. */
  lemma {:induction false} WithNameListsFrame(terms: Terms, rows: Rows, keys: seq<string>, k: string)
    requires k !in keys
    ensures Lookup(WithNameLists(terms, rows, keys), k) == Lookup(terms, k)
  {
    if keys != [] {
      WithNameListsFrame(terms, rows, keys[..|keys| - 1], k);
    }
  }

  /** The name list stored under a key: its entries when there are more than one. */
  function NameListEntry(rows: Rows, key: string): Option<seq<Term>>
  {
    match Lookup(rows, key)
    case None => None
    case Some(row) => if |TrimmedTexts(row.childNodes)| > 1 then Some(TrimmedTexts(row.childNodes)) else None
  }

  /** With distinct keys, each name-list category holds its row's list of more than one entry, or is left as it was. */
  lemma {:induction false} WithNameListsLookup(terms: Terms, rows: Rows, keys: seq<string>, i: nat)
    requires forall a, b :: 0 <= a < b < |keys| ==> keys[a] != keys[b]
    requires i < |keys|
    ensures Lookup(WithNameLists(terms, rows, keys), keys[i]) ==
      if NameListEntry(rows, keys[i]).Some? then NameListEntry(rows, keys[i]) else Lookup(terms, keys[i])
  {
    var init := keys[..|keys| - 1];
    var before := WithNameLists(terms, rows, init);
    if i == |keys| - 1 {
      assert keys[i] !in init by {
        forall a | 0 <= a < |init| ensures init[a] != keys[i] { assert init[a] == keys[a]; }
      }
      WithNameListsFrame(terms, rows, init, keys[i]);
      match Lookup(rows, keys[i]) {
        case None =>
        case Some(row) => DefinedOfSomes(TrimmedTexts(row.childNodes));
      }
    } else {
      WithNameListsLookup(terms, rows, init, i);
    }
  }

  // ---------------------------------------------------------------------------
  // Contextual rules

  /** `hasTerms` over a concatenation. */
  lemma {:induction false} AnyMentionsAppend(a: seq<Term>, b: seq<Term>, matchTerms: seq<string>)
    ensures AnyMentions(a + b, matchTerms) == (AnyMentions(a, matchTerms) || AnyMentions(b, matchTerms))
  {
    if a != [] {
      assert (a + b)[0] == a[0];
      assert (a + b)[1..] == a[1..] + b;
      AnyMentionsAppend(a[1..], b, matchTerms);
    } else {
      assert a + b == b;
    }
  }

  /** One appending rule: Category grows at its end by `extra` exactly when it mentions a match term. */
  lemma AppendIfMentionedCategory(terms: Terms, matchTerms: seq<string>, extra: seq<Term>)
    ensures Lookup(AppendIfMentioned(terms, matchTerms, extra), "Category") ==
      match Lookup(terms, "Category")
      case None => None
      case Some(ts) => Some(ts + if AnyMentions(ts, matchTerms) then extra else [])
  {
    match Lookup(terms, "Category") {
      case None =>
      case Some(ts) => assert ts + [] == ts;
    }
  }

  /** An appending rule changes no other category and keeps the key order. */
  lemma AppendIfMentionedFrame(terms: Terms, matchTerms: seq<string>, extra: seq<Term>)
    ensures forall k :: k != "Category" ==> Lookup(AppendIfMentioned(terms, matchTerms, extra), k) == Lookup(terms, k)
    ensures Keys(AppendIfMentioned(terms, matchTerms, extra)) == Keys(terms)
  {
    match Lookup(terms, "Category") {
      case None =>
      case Some(ts) => PutKeys(terms, "Category", ts + extra);
    }
  }

  /** Category after the first two rules: the original terms, then Figure, then Keychain and Strap, each when its rule fires. */
  function ContextualCategory(ts: seq<Term>): seq<Term>
  {
    ts + (if AnyMentions(ts, FigureCategories) then [Figure] else [])
       + (if AnyMentions(ts, ["Hanged up"]) then [Keychain, Strap] else [])
  }

  /** The pairs the rules append match no later rule. */
  lemma AppendedMatchNothing()
    ensures !AnyMentions([Figure], ["Hanged up"]) && !AnyMentions([Figure], ["Characters"])
    ensures !AnyMentions([Keychain, Strap], ["Characters"])
  {
    assert [Figure][1..] == [];
    assert [Keychain, Strap][1..] == [Strap];
    assert [Strap][1..] == [];
  }

  /** The first two rules, in the code's order. */
  function CategoryRules(terms: Terms): Terms
  {
    AppendIfMentioned(AppendIfMentioned(terms, FigureCategories, [Figure]), ["Hanged up"], [Keychain, Strap])
  }

  /** The Category the last rule tests: the first two rules see the original Category. */
  lemma CategoryRulesCategory(terms: Terms)
    ensures Lookup(CategoryRules(terms), "Category") ==
      match Lookup(terms, "Category")
      case None => None
      case Some(ts) => Some(ContextualCategory(ts))
  {
    var t1 := AppendIfMentioned(terms, FigureCategories, [Figure]);
    AppendIfMentionedCategory(terms, FigureCategories, [Figure]);
    AppendIfMentionedCategory(t1, ["Hanged up"], [Keychain, Strap]);
    AppendedMatchNothing();
    match Lookup(terms, "Category") {
      case None =>
      case Some(ts) =>
        var f: seq<Term> := if AnyMentions(ts, FigureCategories) then [Figure] else [];
        AnyMentionsAppend(ts, f, ["Hanged up"]);
        assert AnyMentions([], ["Hanged up"]) == false;
    }
  }

  /** The appended pairs do not mention "Characters", so the last rule sees what the original Category mentions. */
  lemma CategoryRulesCharacters(terms: Terms)
    ensures HasTerms(CategoryRules(terms), "Category", ["Characters"]) == HasTerms(terms, "Category", ["Characters"])
  {
    CategoryRulesCategory(terms);
    AppendedMatchNothing();
    match Lookup(terms, "Category") {
      case None =>
      case Some(ts) =>
        var f: seq<Term> := if AnyMentions(ts, FigureCategories) then [Figure] else [];
        var h: seq<Term> := if AnyMentions(ts, ["Hanged up"]) then [Keychain, Strap] else [];
        AnyMentionsAppend(ts + f, h, ["Characters"]);
        AnyMentionsAppend(ts, f, ["Characters"]);
        assert AnyMentions([], ["Characters"]) == false;
    }
  }

  /** The first two rules change only Category and keep the key order. */
  lemma CategoryRulesFrame(terms: Terms)
    ensures forall k :: k != "Category" ==> Lookup(CategoryRules(terms), k) == Lookup(terms, k)
    ensures Keys(CategoryRules(terms)) == Keys(terms)
  {
    AppendIfMentionedFrame(terms, FigureCategories, [Figure]);
    AppendIfMentionedFrame(AppendIfMentioned(terms, FigureCategories, [Figure]), ["Hanged up"], [Keychain, Strap]);
  }

  /** The last rule changes only "Product Type", and adds it to the key order only when it was missing. */
  lemma SetProductTypeFrame(terms: Terms)
    ensures Lookup(SetProductType(terms), "Product Type") ==
      if HasTerms(terms, "Category", ["Characters"]) then Some(ProductTypes) else Lookup(terms, "Product Type")
    ensures forall k :: k != "Product Type" ==> Lookup(SetProductType(terms), k) == Lookup(terms, k)
    ensures Keys(SetProductType(terms)) ==
      if HasTerms(terms, "Category", ["Characters"]) && Lookup(terms, "Product Type").None? then Keys(terms) + ["Product Type"]
      else Keys(terms)
  {
    PutKeys(terms, "Product Type", ProductTypes);
  }

  /**
   * The rules fire on the original Category, although the code tests each
   * after the previous one has appended: the appended pairs never match a
   * later rule. Existing Category terms keep their order and are followed
   * by what the rules append.
   */
  lemma ContextualRules(terms: Terms)
    ensures Lookup(WithContextualTerms(terms), "Category") ==
      match Lookup(terms, "Category")
      case None => None
      case Some(ts) => Some(ContextualCategory(ts))
  {
    var ruled := CategoryRules(terms);
    CategoryRulesCategory(terms);
    SetProductTypeCategory(ruled);
    assert WithContextualTerms(terms) == SetProductType(ruled);
  }

  lemma SetProductTypeCategory(terms: Terms)
    ensures Lookup(SetProductType(terms), "Category") == Lookup(terms, "Category")
  {
    assert "Category"[0] != "Product Type"[0];
  }

  /** "Product Type" is set to the three fixed pairs exactly when the original Category mentions "Characters". */
  lemma ContextualProductType(terms: Terms)
    ensures Lookup(WithContextualTerms(terms), "Product Type") ==
      if HasTerms(terms, "Category", ["Characters"]) then Some(ProductTypes) else Lookup(terms, "Product Type")
  {
    var ruled := CategoryRules(terms);
    CategoryRulesCharacters(terms);
    CategoryRulesFrame(terms);
    assert Lookup(ruled, "Product Type") == Lookup(terms, "Product Type");
    SetProductTypeFrame(ruled);
    assert WithContextualTerms(terms) == SetProductType(ruled);
  }

  /** No category but Category and "Product Type" changes. */
  lemma ContextualFrame(terms: Terms, k: string)
    requires k != "Category" && k != "Product Type"
    ensures Lookup(WithContextualTerms(terms), k) == Lookup(terms, k)
  {
    CategoryRulesFrame(terms);
    SetProductTypeFrame(CategoryRules(terms));
  }

  /** Only "Product Type" can join the key order, and at its end. */
  lemma ContextualKeys(terms: Terms)
    ensures Keys(WithContextualTerms(terms)) ==
      if HasTerms(terms, "Category", ["Characters"]) && Lookup(terms, "Product Type").None? then Keys(terms) + ["Product Type"]
      else Keys(terms)
  {
    var ruled := CategoryRules(terms);
    CategoryRulesKeys(terms);
    CategoryRulesCharacters(terms);
    SetProductTypeKeys(ruled);
    assert WithContextualTerms(terms) == SetProductType(ruled);
  }

  lemma CategoryRulesKeys(terms: Terms)
    ensures Keys(CategoryRules(terms)) == Keys(terms)
    ensures Lookup(CategoryRules(terms), "Product Type") == Lookup(terms, "Product Type")
  {
    CategoryRulesFrame(terms);
  }

  lemma SetProductTypeKeys(terms: Terms)
    ensures Keys(SetProductType(terms)) ==
      if HasTerms(terms, "Category", ["Characters"]) && Lookup(terms, "Product Type").None? then Keys(terms) + ["Product Type"]
      else Keys(terms)
  {
    SetProductTypeFrame(terms);
  }

  // ---------------------------------------------------------------------------
  // What `scrapeTerms` returns

  /** The categories set before the groups: the "Category" row's text and the merged name. */
  function Header(rows: Rows): Terms
  {
    WithName(WithCategoryRow([], rows), rows)
  }

  /** What the name merge stores under "Name". */
  function NameEntry(rows: Rows): Option<seq<Term>>
  {
    match (Lookup(rows, "Name"), Lookup(rows, "Original name"))
    case (Some(name), Some(original)) => Some([Pair(name.text, original.text)])
    case (Some(name), None) => Some([Plain(name.text)])
    case (None, Some(original)) => Some([Plain(original.text)])
    case (None, None) => None
  }

  /** `setCategory` of one defined term stores that term alone. */
  lemma WithCategorySingle(terms: Terms, k: string, t: Term)
    ensures Lookup(WithCategory(terms, k, [Some(t)]), k) == Some([t])
    ensures forall k' :: k' != k ==> Lookup(WithCategory(terms, k, [Some(t)]), k') == Lookup(terms, k')
  {
    assert [Some(t)][1..] == [];
    assert Defined([Some(t)]) == [t];
  }

  /** Only "Category" and "Name" are set before the groups, to the row text and the merged name. */
  lemma HeaderLookup(rows: Rows, k: string)
    ensures Lookup(Header(rows), k) ==
      if k == "Category" then
        match Lookup(rows, "Category") case None => None case Some(row) => Some([Plain(row.text)])
      else if k == "Name" then NameEntry(rows)
      else None
  {
    var start := WithCategoryRow([], rows);
    match Lookup(rows, "Category") {
      case None =>
      case Some(row) => WithCategorySingle([], "Category", Plain(row.text));
    }
    match (Lookup(rows, "Name"), Lookup(rows, "Original name")) {
      case (Some(name), Some(original)) => WithCategorySingle(start, "Name", Pair(name.text, original.text));
      case (Some(name), None) => WithCategorySingle(start, "Name", Plain(name.text));
      case (None, Some(original)) => WithCategorySingle(start, "Name", Plain(original.text));
      case (None, None) =>
    }
  }

  /** The group heads and the name-list keys are distinct from each other and from the other categories. */
  lemma KeysDistinct()
    ensures forall g :: 0 <= g < |CategoryKeys| ==> CategoryKeys[g] != []
    ensures forall g, g' :: 0 <= g < g' < |CategoryKeys| ==> CategoryKeys[g][0] != CategoryKeys[g'][0]
    ensures forall g :: 0 <= g < |CategoryKeys| ==>
      CategoryKeys[g][0] !in NameListKeys + ["Category", "Name", "Product Type"]
    ensures NameListKeys[0] != NameListKeys[1]
    ensures forall k :: k in NameListKeys ==> k !in ["Category", "Name", "Product Type"]
  {
  }

  /**
   * The Name merge: both rows give one pair (English from "Name", Japanese
   * from "Original name"), one row gives its plain text, and no row gives
   * no "Name" category.
   */
  lemma ScrapeName(rows: Rows, isJp: bool)
    ensures Lookup(Scrape(rows, isJp), "Name") ==
      NameEntry(rows)
  {
    HeaderLookup(rows, "Name");
    var header := Header(rows);
    KeysDistinct();
    WithGroupsFrame(header, rows, CategoryKeys, isJp, "Name");
    WithNameListsFrame(WithGroups(header, rows, CategoryKeys, isJp), rows, NameListKeys, "Name");
    ContextualFrame(Listed(rows, isJp), "Name");
  }

  /**
   * Aliased labels: a group's category holds the leaf terms of its last
   * present label whose terms are non-empty; with no such label it is absent.
   */
  lemma ScrapeGroupCategory(rows: Rows, isJp: bool, g: nat)
    requires g < |CategoryKeys|
    ensures Lookup(Scrape(rows, isJp), CategoryKeys[g][0]) == LastContribution(rows, CategoryKeys[g], isJp)
  {
    var header := Header(rows);
    var key := CategoryKeys[g][0];
    KeysDistinct();
    HeaderLookup(rows, key);
    WithGroupsLookup(header, rows, CategoryKeys, isJp, g);
    WithNameListsFrame(WithGroups(header, rows, CategoryKeys, isJp), rows, NameListKeys, key);
    ContextualFrame(Listed(rows, isJp), key);
  }

  /** "Aliases" and "Adaptations/Translations" hold their parsed list exactly when it has more than one entry. */
  lemma ScrapeNameListCategory(rows: Rows, isJp: bool, i: nat)
    requires i < |NameListKeys|
    ensures Lookup(Scrape(rows, isJp), NameListKeys[i]) == NameListEntry(rows, NameListKeys[i])
  {
    var header := Header(rows);
    var key := NameListKeys[i];
    KeysDistinct();
    HeaderLookup(rows, key);
    WithGroupsFrame(header, rows, CategoryKeys, isJp, key);
    WithNameListsLookup(WithGroups(header, rows, CategoryKeys, isJp), rows, NameListKeys, i);
    ContextualFrame(Listed(rows, isJp), key);
  }

  /** A single plain term is mentioned exactly when its text is a match term. */
  lemma MentionsSingle(s: string, matchTerms: seq<string>)
    ensures AnyMentions([Plain(s)], matchTerms) == (s in matchTerms)
  {
    assert [Plain(s)][1..] == [];
  }

  /** Before the contextual rules, Category is the row's text and there is no "Product Type". */
  lemma ListedCategory(rows: Rows, isJp: bool)
    ensures Lookup(Listed(rows, isJp), "Category") ==
      match Lookup(rows, "Category") case None => None case Some(row) => Some([Plain(row.text)])
    ensures Lookup(Listed(rows, isJp), "Product Type") == None
  {
    var header := Header(rows);
    HeaderLookup(rows, "Category");
    HeaderLookup(rows, "Product Type");
    KeysDistinct();
    WithGroupsFrame(header, rows, CategoryKeys, isJp, "Category");
    WithGroupsFrame(header, rows, CategoryKeys, isJp, "Product Type");
    WithNameListsFrame(WithGroups(header, rows, CategoryKeys, isJp), rows, NameListKeys, "Category");
    WithNameListsFrame(WithGroups(header, rows, CategoryKeys, isJp), rows, NameListKeys, "Product Type");
  }

  /**
   * Category and Product Type of a page: the "Category" row's text, then
   * Figure when it names a figure kind, then Keychain and Strap when it is
   * "Hanged up"; "Product Type" is the three fixed pairs exactly when it is
   * "Characters".
   */
  lemma ScrapeCategory(rows: Rows, isJp: bool)
    ensures Lookup(Scrape(rows, isJp), "Category") ==
      match Lookup(rows, "Category")
      case None => None
      case Some(row) => Some([Plain(row.text)]
        + (if row.text in FigureCategories then [Figure] else [])
        + (if row.text == "Hanged up" then [Keychain, Strap] else []))
    ensures Lookup(Scrape(rows, isJp), "Product Type") ==
      if Lookup(rows, "Category").Some? && Lookup(rows, "Category").value.text == "Characters" then Some(ProductTypes)
      else None
  {
    ListedCategory(rows, isJp);
    ContextualRules(Listed(rows, isJp));
    ContextualProductType(Listed(rows, isJp));
    match Lookup(rows, "Category") {
      case None =>
      case Some(row) =>
        MentionsSingle(row.text, FigureCategories);
        MentionsSingle(row.text, ["Hanged up"]);
        MentionsSingle(row.text, ["Characters"]);
    }
  }

  // ---------------------------------------------------------------------------
  // No category is ever empty

  lemma {:induction false} WithLabelsWellFormed(terms: Terms, rows: Rows, canonical: string, labels: seq<string>, isJp: bool)
    requires WellFormed(terms)
    ensures WellFormed(WithLabels(terms, rows, canonical, labels, isJp))
  {
    if labels != [] {
      var before := WithLabels(terms, rows, canonical, labels[..|labels| - 1], isJp);
      WithLabelsWellFormed(terms, rows, canonical, labels[..|labels| - 1], isJp);
      match Lookup(rows, labels[|labels| - 1]) {
        case None =>
        case Some(row) => WithCategoryWellFormed(before, canonical, Somes(LeafTerms(row, isJp)));
      }
    }
  }

  lemma {:induction false} WithGroupsWellFormed(terms: Terms, rows: Rows, groups: seq<seq<string>>, isJp: bool)
    requires forall g :: 0 <= g < |groups| ==> groups[g] != []
    requires WellFormed(terms)
    ensures WellFormed(WithGroups(terms, rows, groups, isJp))
  {
    if groups != [] {
      var last := groups[|groups| - 1];
      WithGroupsWellFormed(terms, rows, groups[..|groups| - 1], isJp);
      WithLabelsWellFormed(WithGroups(terms, rows, groups[..|groups| - 1], isJp), rows, last[0], last, isJp);
    }
  }

  lemma {:induction false} WithNameListsWellFormed(terms: Terms, rows: Rows, keys: seq<string>)
    requires WellFormed(terms)
    ensures WellFormed(WithNameLists(terms, rows, keys))
  {
    if keys != [] {
      var before := WithNameLists(terms, rows, keys[..|keys| - 1]);
      WithNameListsWellFormed(terms, rows, keys[..|keys| - 1]);
      match Lookup(rows, keys[|keys| - 1]) {
        case None =>
        case Some(row) => WithCategoryWellFormed(before, keys[|keys| - 1], Somes(TrimmedTexts(row.childNodes)));
      }
    }
  }

  lemma AppendIfMentionedWellFormed(terms: Terms, matchTerms: seq<string>, extra: seq<Term>)
    requires WellFormed(terms)
    ensures WellFormed(AppendIfMentioned(terms, matchTerms, extra))
  {
    match Lookup(terms, "Category") {
      case None =>
      case Some(ts) => PutKeyed(terms, "Category", ts + extra);
    }
  }

  lemma ContextualWellFormed(terms: Terms)
    requires WellFormed(terms)
    ensures WellFormed(WithContextualTerms(terms))
  {
    AppendIfMentionedWellFormed(terms, FigureCategories, [Figure]);
    AppendIfMentionedWellFormed(AppendIfMentioned(terms, FigureCategories, [Figure]), ["Hanged up"], [Keychain, Strap]);
    PutKeyed(CategoryRules(terms), "Product Type", ProductTypes);
  }

  /** Every key of a scraped `Terms` is distinct and maps to a non-empty list. */
  lemma ScrapeWellFormed(rows: Rows, isJp: bool)
    ensures WellFormed(Scrape(rows, isJp))
  {
    var start := WithCategoryRow([], rows);
    match Lookup(rows, "Category") {
      case None =>
      case Some(row) => WithCategoryWellFormed([], "Category", [Some(Plain(row.text))]);
    }
    match (Lookup(rows, "Name"), Lookup(rows, "Original name")) {
      case (Some(name), Some(original)) => WithCategoryWellFormed(start, "Name", [Some(Pair(name.text, original.text))]);
      case (Some(name), None) => WithCategoryWellFormed(start, "Name", [Some(Plain(name.text))]);
      case (None, Some(original)) => WithCategoryWellFormed(start, "Name", [Some(Plain(original.text))]);
      case (None, None) =>
    }
    KeysDistinct();
    WithGroupsWellFormed(Header(rows), rows, CategoryKeys, isJp);
    WithNameListsWellFormed(WithGroups(Header(rows), rows, CategoryKeys, isJp), rows, NameListKeys);
    ContextualWellFormed(Listed(rows, isJp));
  }
}
