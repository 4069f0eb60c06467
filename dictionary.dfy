/**
 * The Japanese-to-English dictionary `queryTranslator` builds from the
 * scraped terms (src/ui.ts): every bilingual pair, category by category in
 * key order, writes `dict[jp] = en`.
 */
module Dictionary {
  import opened Wrappers
  import opened Records
  import opened Scrape

  /** Japanese text to English text, in insertion order. */
  type Dict = Record<string>

  /** `Object.values(termMap)`, concatenated in key order. */
  function Flatten(terms: Terms): seq<Term>
  {
    if terms == [] then [] else Flatten(terms[..|terms| - 1]) + terms[|terms| - 1].1
  }

  /** Writes `d[jp] = en` for every pair of `ts`, in order; plain terms are skipped. */
  function AddTerms(d: Dict, ts: seq<Term>): Dict
  {
    if ts == [] then d
    else
      var before := AddTerms(d, ts[..|ts| - 1]);
      match ts[|ts| - 1]
      case Plain(_) => before
      case Pair(en, jp) => Put(before, jp, en)
  }

  /** The dictionary built from `terms`. */
  function Dictionary(terms: Terms): Dict
  {
    AddTerms([], Flatten(terms))
  }

  /** Adding two runs of terms is adding the first, then the second. */
  lemma {:induction false} AddTermsAppend(d: Dict, a: seq<Term>, b: seq<Term>)
    ensures AddTerms(d, a + b) == AddTerms(AddTerms(d, a), b)
  {
    if b == [] {
      assert a + b == a;
    } else {
      assert (a + b)[..|a + b| - 1] == a + b[..|b| - 1];
      AddTermsAppend(d, a, b[..|b| - 1]);
    }
  }

  /** The inner loop of the dictionary build: one category's terms. */
  method AddCategory(d: Dict, ts: seq<Term>) returns (dict: Dict)
    ensures dict == AddTerms(d, ts)
  {
    dict := d;
    for j := 0 to |ts|
      invariant dict == AddTerms(d, ts[..j])
    {
      assert ts[..j + 1][..j] == ts[..j];
      match ts[j] {
        case Plain(_) =>
        case Pair(en, jp) => dict := Put(dict, jp, en);
      }
    }
    assert ts[..|ts|] == ts;
  }

  /** The dictionary-building loops of `queryTranslator`. */
  method BuildDictionary(terms: Terms) returns (dict: Dict)
    ensures dict == Dictionary(terms)
  {
    dict := [];
    for i := 0 to |terms|
      invariant dict == AddTerms([], Flatten(terms[..i]))
    {
      assert terms[..i + 1][..i] == terms[..i];
      AddTermsAppend([], Flatten(terms[..i]), terms[i].1);
      dict := AddCategory(dict, terms[i].1);
    }
    assert terms[..|terms|] == terms;
  }

  /** The English side of the last pair in `ts` whose Japanese side is `jp`. */
  function LastTranslation(ts: seq<Term>, jp: string): Option<string>
  {
    if ts == [] then None
    else if ts[|ts| - 1].Pair? && ts[|ts| - 1].jp == jp then Some(ts[|ts| - 1].en)
    else LastTranslation(ts[..|ts| - 1], jp)
  }

  /** `LastTranslation` is absent exactly when no pair has that Japanese side. */
  lemma {:induction false} LastTranslationNone(ts: seq<Term>, jp: string)
    ensures LastTranslation(ts, jp).None? <==> forall i :: 0 <= i < |ts| ==> !(ts[i].Pair? && ts[i].jp == jp)
  {
    if ts != [] {
      var init := ts[..|ts| - 1];
      LastTranslationNone(init, jp);
      assert forall i :: 0 <= i < |init| ==> ts[i] == init[i];
    }
  }

  /** When present, `LastTranslation` comes from a pair with no later pair of the same Japanese side. */
  lemma {:induction false} LastTranslationIsLast(ts: seq<Term>, jp: string) returns (i: nat)
    requires LastTranslation(ts, jp).Some?
    ensures i < |ts| && ts[i] == Pair(LastTranslation(ts, jp).value, jp)
    ensures forall i' :: i < i' < |ts| ==> !(ts[i'].Pair? && ts[i'].jp == jp)
  {
    var init := ts[..|ts| - 1];
    if ts[|ts| - 1].Pair? && ts[|ts| - 1].jp == jp {
      i := |ts| - 1;
    } else {
      i := LastTranslationIsLast(init, jp);
      assert ts[i] == init[i];
    }
  }

  /** Adding terms to a dictionary: the last pair for a Japanese text decides its entry. */
  lemma {:induction false} AddTermsLookup(d: Dict, ts: seq<Term>, jp: string)
    ensures Lookup(AddTerms(d, ts), jp) ==
      if LastTranslation(ts, jp).Some? then LastTranslation(ts, jp) else Lookup(d, jp)
  {
    if ts != [] {
      AddTermsLookup(d, ts[..|ts| - 1], jp);
    }
  }

  /** Adding terms keeps the keys distinct. */
  lemma {:induction false} AddTermsKeyed(d: Dict, ts: seq<Term>)
    requires Keyed(d)
    ensures Keyed(AddTerms(d, ts))
  {
    if ts != [] {
      AddTermsKeyed(d, ts[..|ts| - 1]);
      match ts[|ts| - 1] {
        case Plain(_) =>
        case Pair(en, jp) => PutKeyed(AddTerms(d, ts[..|ts| - 1]), jp, en);
      }
    }
  }

  /** A term is flattened exactly when some category holds it. */
  lemma {:induction false} FlattenHolds(terms: Terms, t: Term)
    ensures t in Flatten(terms) <==> exists k :: 0 <= k < |terms| && t in terms[k].1
  {
    if terms != [] {
      var init := terms[..|terms| - 1];
      FlattenHolds(init, t);
      assert forall k :: 0 <= k < |init| ==> terms[k] == init[k];
    }
  }

  /**
   * The dictionary has one entry per Japanese side of a pair anywhere in
   * the terms, holding the English side of the last such pair in
   * category-then-position order; plain terms contribute nothing.
   */
  lemma DictionaryLookup(terms: Terms, jp: string)
    ensures Lookup(Dictionary(terms), jp) == LastTranslation(Flatten(terms), jp)
    ensures Keyed(Dictionary(terms))
  {
    AddTermsLookup([], Flatten(terms), jp);
    AddTermsKeyed([], Flatten(terms));
  }
}
