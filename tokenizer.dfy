/**
 * The segmentation loop of `updateTranslation` (src/ui.ts): the query is
 * read left to right, the longest dictionary key that starts the rest of the
 * query is taken as a match (and whitespace around the rest is trimmed), and
 * characters no key matches gather into runs shown as themselves.
 */
module Tokenizer {
  import opened Records
  import opened Text
  import opened Dictionary

  /** One entry of `termTranslations`: a dictionary match, or a run of unmatched characters. */
  datatype Segment = Matched(source: string, display: string) | Literal(source: string)
  {
    /** The second element of the entry: the translation, or the run itself. */
    function Display(): string
    {
      match this
      case Matched(_, display) => display
      case Literal(source) => source
    }
  }

  // ---------------------------------------------------------------------------
  // Longest match

  /**
   * The scan over `Object.entries(dict)` from a running best: an entry takes
   * over only when its key is strictly longer and starts `q`.
   */
  function Longest(entries: Dict, q: string, best: (string, string)): (r: (string, string))
    ensures r == best || (r in entries && r.0 <= q && |r.0| > |best.0|)
  {
    if entries == [] then best
    else
      var e := entries[0];
      Longest(entries[1..], q, if |e.0| > |best.0| && e.0 <= q then e else best)
  }

  /** The match and its translation for the rest `q` of the query; an empty key means no match. */
  function BestMatch(d: Dict, q: string): (string, string)
  {
    Longest(d, q, ("", ""))
  }

  /** The inner `for` loop of `updateTranslation`. */
  method LongestMatch(d: Dict, q: string) returns (m: string, t: string)
    ensures (m, t) == BestMatch(d, q)
  {
    m, t := "", "";
    assert d[0..] == d;
    for i := 0 to |d|
      invariant Longest(d[i..], q, (m, t)) == BestMatch(d, q)
    {
      assert d[i..][1..] == d[i + 1..];
      var (term, translation) := d[i];
      if |term| > |m| && term <= q {
        m, t := term, translation;
      }
    }
  }

  /** No key that starts `q` is longer than what the scan picks. */
  lemma {:induction false} LongestIsLongest(entries: Dict, q: string, best: (string, string))
    ensures forall j :: 0 <= j < |entries| && entries[j].0 <= q ==> |entries[j].0| <= |Longest(entries, q, best).0|
  {
    if entries != [] {
      var e := entries[0];
      var next := if |e.0| > |best.0| && e.0 <= q then e else best;
      LongestIsLongest(entries[1..], q, next);
      assert forall j :: 0 < j < |entries| ==> entries[j] == entries[1..][j - 1];
    }
  }

  /** Among keys of the picked length that start `q`, the scan picks the first in iteration order. */
  lemma {:induction false} LongestIsFirst(entries: Dict, q: string, best: (string, string))
    requires Longest(entries, q, best) != best
    ensures exists i :: (0 <= i < |entries| && entries[i] == Longest(entries, q, best) &&
      forall j :: 0 <= j < i && entries[j].0 <= q ==> |entries[j].0| < |Longest(entries, q, best).0|)
  {
    var e := entries[0];
    var next := if |e.0| > |best.0| && e.0 <= q then e else best;
    var r := Longest(entries[1..], q, next);
    if r != next {
      LongestIsFirst(entries[1..], q, next);
      var i :| 0 <= i < |entries[1..]| && entries[1..][i] == r &&
        forall j :: 0 <= j < i && entries[1..][j].0 <= q ==> |entries[1..][j].0| < |r.0|;
      assert entries[i + 1] == r;
      forall j | 0 <= j < i + 1 && entries[j].0 <= q
        ensures |entries[j].0| < |r.0|
      {
        if j > 0 {
          assert entries[j] == entries[1..][j - 1];
        }
      }
    }
  }

  /**
   * The match is the longest key starting `q`, the first such key in
   * iteration order; it is empty exactly when no non-empty key starts `q`
   * (an empty key never matches, as `0 > 0` fails).
   */
  lemma BestMatchIsLongest(d: Dict, q: string)
    ensures forall j :: 0 <= j < |d| && d[j].0 <= q ==> |d[j].0| <= |BestMatch(d, q).0|
    ensures BestMatch(d, q).0 != [] ==>
      exists i :: (0 <= i < |d| && d[i] == BestMatch(d, q) && d[i].0 <= q &&
        forall j :: 0 <= j < i && d[j].0 <= q ==> |d[j].0| < |d[i].0|)
    ensures BestMatch(d, q).0 == [] <==> forall j :: 0 <= j < |d| && d[j].0 <= q ==> d[j].0 == []
  {
    LongestIsLongest(d, q, ("", ""));
    if BestMatch(d, q).0 != [] {
      LongestIsFirst(d, q, ("", ""));
    }
  }

  /** The scan depends only on which keys start the query. */
  lemma {:induction false} LongestSameCandidates(entries: Dict, q1: string, q2: string, best: (string, string))
    requires forall e :: e in entries ==> (e.0 <= q1 <==> e.0 <= q2)
    ensures Longest(entries, q1, best) == Longest(entries, q2, best)
  {
    if entries != [] {
      assert entries[0] in entries;
      LongestSameCandidates(entries[1..], q1, q2, if |entries[0].0| > |best.0| && entries[0].0 <= q1 then entries[0] else best);
    }
  }

  /** A match is also the match of itself: the keys that start it are those that start the query. */
  lemma MatchIsOwnMatch(d: Dict, q: string)
    requires BestMatch(d, q).0 != []
    ensures BestMatch(d, BestMatch(d, q).0) == BestMatch(d, q)
  {
    var m := BestMatch(d, q).0;
    LongestIsLongest(d, q, ("", ""));
    forall e | e in d
      ensures e.0 <= q <==> e.0 <= m
    {
      var j :| 0 <= j < |d| && d[j] == e;
      if e.0 <= q {
        assert e.0 == q[..|e.0|] == m[..|e.0|];
      }
    }
    LongestSameCandidates(d, q, m, ("", ""));
  }

  // ---------------------------------------------------------------------------
  // Segmentation

  /** Pushes the pending unmatched run, if any. */
  function Flush(unmatched: string): seq<Segment>
  {
    if unmatched == [] then [] else [Literal(unmatched)]
  }

  /** What one iteration of the `while` loop pushes, and the query and unmatched run it leaves. */
  datatype Progress = Progress(emitted: seq<Segment>, rest: string, unmatched: string)

  /**
   * One iteration of the `while` loop on the rest `q` of the query with
   * `unmatched` pending: with no match the first character joins the run;
   * on a match the run is pushed, then the match, and the rest after the
   * match is trimmed. Either way the query gets shorter.
   */
  function Advance(d: Dict, q: string, unmatched: string): (p: Progress)
    requires q != []
    ensures |p.rest| < |q|
  {
    var best := BestMatch(d, q);
    if best.0 == [] then Progress([], q[1..], unmatched + [q[0]])
    else Progress(Flush(unmatched) + [Matched(best.0, best.1)], Trim(q[|best.0|..]), [])
  }

  /** The segments the loop and the final flush produce from `q` with `unmatched` pending. */
  function Tokens(d: Dict, q: string, unmatched: string): seq<Segment>
    decreases |q|
  {
    if q == [] then Flush(unmatched)
    else
      var p := Advance(d, q, unmatched);
      p.emitted + Tokens(d, p.rest, p.unmatched)
  }

  /** The segments of the whole query. */
  function Segmentation(d: Dict, s: string): seq<Segment>
  {
    Tokens(d, s, [])
  }

  /** The body of `updateTranslation`'s `while` loop: one `Advance`. */
  method Step(d: Dict, query: string, unmatched: string, segs: seq<Segment>)
    returns (query': string, unmatched': string, segs': seq<Segment>)
    requires |query| > 0
    ensures segs' == segs + Advance(d, query, unmatched).emitted
    ensures query' == Advance(d, query, unmatched).rest && unmatched' == Advance(d, query, unmatched).unmatched
  {
    query', unmatched', segs' := query, unmatched, segs;
    var m, t := LongestMatch(d, query);
    if m == "" {
      assert query[..1] == [query[0]];
      unmatched' := unmatched + query[..1];
      query' := query[1..];
    } else {
      if |unmatched| != 0 {
        segs' := segs' + [Literal(unmatched)];
        unmatched' := "";
      }
      segs' := segs' + [Matched(m, t)];
      query' := Trim(query[|m|..]);
    }
  }

  /** `updateTranslation`'s loop and final flush. */
  method Tokenize(d: Dict, input: string) returns (segs: seq<Segment>)
    ensures segs == Segmentation(d, input)
  {
    segs := [];
    var query := input;
    var unmatched := "";
    while |query| > 0
      invariant segs + Tokens(d, query, unmatched) == Segmentation(d, input)
      decreases |query|
    {
      StepTokens(d, query, unmatched, segs);
      query, unmatched, segs := Step(d, query, unmatched, segs);
    }
    if |unmatched| != 0 {
      segs := segs + [Literal(unmatched)];
    }
  }

  /** What the loop has pushed and what it will still push add up after one more iteration. */
  lemma StepTokens(d: Dict, q: string, unmatched: string, segs: seq<Segment>)
    requires q != []
    ensures var p := Advance(d, q, unmatched);
      segs + Tokens(d, q, unmatched) == (segs + p.emitted) + Tokens(d, p.rest, p.unmatched)
  {
    var p := Advance(d, q, unmatched);
    assert Tokens(d, q, unmatched) == p.emitted + Tokens(d, p.rest, p.unmatched);
  }

  /** An iteration without a match moves one character into the unmatched run. */
  lemma NoMatchStep(d: Dict, q: string, unmatched: string)
    requires q != [] && BestMatch(d, q).0 == []
    ensures Tokens(d, q, unmatched) == Tokens(d, q[1..], unmatched + [q[0]])
  {
  }

  /** An iteration with a match pushes the pending run and the match, and trims what follows. */
  lemma MatchStep(d: Dict, q: string, unmatched: string, m: string, t: string, rest: string)
    requires BestMatch(d, q) == (m, t) && m != []
    requires rest == Trim(q[|m|..])
    ensures Tokens(d, q, unmatched) == Flush(unmatched) + [Matched(m, t)] + Tokens(d, rest, [])
  {
  }

  /** With a single entry, the match is that entry exactly when its key is non-empty and starts the query. */
  lemma SingleKey(k: string, v: string, q: string)
    ensures BestMatch([(k, v)], q) == if k != [] && k <= q then (k, v) else ("", "")
  {
    assert [(k, v)][1..] == [];
  }

  // ---------------------------------------------------------------------------
  // Shape of a segmentation

  /**
   * An unmatched run is non-empty; a match is a non-empty dictionary entry
   * that is also the match of its own text.
   */
  predicate SegmentOk(d: Dict, s: Segment)
  {
    match s
    case Literal(source) => source != []
    case Matched(source, display) => source != [] && (source, display) in d && BestMatch(d, source) == (source, display)
  }

  /** No two unmatched runs are adjacent. */
  ghost predicate LiteralsApart(segs: seq<Segment>)
  {
    forall i :: 0 <= i < |segs| - 1 ==> !(segs[i].Literal? && segs[i + 1].Literal?)
  }

  /** Every segment the loop pushes is well formed. */
  lemma {:induction false} TokensOk(d: Dict, q: string, unmatched: string)
    ensures forall s :: s in Tokens(d, q, unmatched) ==> SegmentOk(d, s)
    decreases |q|
  {
    if q != [] {
      var p := Advance(d, q, unmatched);
      TokensOk(d, p.rest, p.unmatched);
      if BestMatch(d, q).0 != [] {
        MatchIsOwnMatch(d, q);
      }
    }
  }

  /** A run is pushed only before a match or at the end, so runs are never adjacent. */
  lemma {:induction false} TokensLiteralsApart(d: Dict, q: string, unmatched: string)
    ensures LiteralsApart(Tokens(d, q, unmatched))
    decreases |q|
  {
    if q != [] {
      var p := Advance(d, q, unmatched);
      StepTokens(d, q, unmatched, []);
      assert [] + p.emitted == p.emitted && [] + Tokens(d, q, unmatched) == Tokens(d, q, unmatched);
      TokensLiteralsApart(d, p.rest, p.unmatched);
      if p.emitted != [] {
        EmittedEndsInMatch(unmatched, BestMatch(d, q).0, BestMatch(d, q).1);
      }
      LiteralsApartAppend(p.emitted, Tokens(d, p.rest, p.unmatched));
    }
  }

  /** What an iteration with a match pushes: at most one run, then the match. */
  lemma EmittedEndsInMatch(unmatched: string, m: string, display: string)
    ensures var e := Flush(unmatched) + [Matched(m, display)];
      LiteralsApart(e) && e[|e| - 1].Matched?
  {
  }

  /** Segments after a run that ends in a match keep runs apart. */
  lemma LiteralsApartAppend(a: seq<Segment>, b: seq<Segment>)
    requires LiteralsApart(a) && LiteralsApart(b)
    requires a != [] ==> a[|a| - 1].Matched?
    ensures LiteralsApart(a + b)
  {
    var all := a + b;
    forall i | 0 <= i < |all| - 1
      ensures !(all[i].Literal? && all[i + 1].Literal?)
    {
      if i >= |a| {
        assert all[i] == b[i - |a|] && all[i + 1] == b[i + 1 - |a|];
      } else if i + 1 < |a| {
        assert all[i] == a[i] && all[i + 1] == a[i + 1];
      } else {
        assert all[i] == a[i];
      }
    }
  }

  /**
   * The segments of any query: unmatched runs are non-empty and never
   * adjacent, and every match is a non-empty dictionary entry that is its
   * own longest match.
   */
  lemma SegmentationShape(d: Dict, s: string)
    ensures forall seg :: seg in Segmentation(d, s) ==> SegmentOk(d, seg)
    ensures LiteralsApart(Segmentation(d, s))
  {
    TokensOk(d, s, []);
    TokensLiteralsApart(d, s, []);
  }

  // ---------------------------------------------------------------------------
  // Where the segments come from in the query

  /** The sources of `segs` in order, each followed by the whitespace `gaps` gives it. */
  ghost function Layout(segs: seq<Segment>, gaps: seq<string>): string
    requires |gaps| == |segs|
  {
    if segs == [] then [] else segs[0].source + gaps[0] + Layout(segs[1..], gaps[1..])
  }

  /** Gaps are whitespace, and only a match is followed by a non-empty one. */
  ghost predicate GapsOk(segs: seq<Segment>, gaps: seq<string>)
    requires |gaps| == |segs|
  {
    forall i :: 0 <= i < |segs| ==> AllSpace(gaps[i]) && (gaps[i] != [] ==> segs[i].Matched?)
  }

  lemma {:induction false} LayoutAppend(a: seq<Segment>, ga: seq<string>, b: seq<Segment>, gb: seq<string>)
    requires |ga| == |a| && |gb| == |b|
    ensures Layout(a + b, ga + gb) == Layout(a, ga) + Layout(b, gb)
  {
    if a == [] {
      assert a + b == b && ga + gb == gb;
    } else {
      assert (a + b)[1..] == a[1..] + b && (ga + gb)[1..] == ga[1..] + gb;
      LayoutAppend(a[1..], ga[1..], b, gb);
    }
  }

  /** What one iteration pushes on a match: the pending run with no gap, then the match with the trimmed whitespace. */
  lemma EmittedLayout(unmatched: string, m: string, display: string, lead: string) returns (gaps: seq<string>)
    requires AllSpace(lead)
    ensures |gaps| == |Flush(unmatched) + [Matched(m, display)]|
    ensures GapsOk(Flush(unmatched) + [Matched(m, display)], gaps)
    ensures Layout(Flush(unmatched) + [Matched(m, display)], gaps) == unmatched + m + lead
  {
    var hit := [Matched(m, display)];
    assert Layout(hit, [lead]) == m + lead by {
      assert hit[1..] == [];
    }
    if unmatched == [] {
      gaps := [lead];
      assert Flush(unmatched) + hit == hit;
    } else {
      gaps := [[], lead];
      var segs := Flush(unmatched) + hit;
      assert segs[1..] == hit && gaps[1..] == [lead];
      assert AllSpace([]);
    }
  }

  /** Layouts and gaps of two runs of segments put together. */
  lemma CombineLayout(a: seq<Segment>, ga: seq<string>, b: seq<Segment>, gb: seq<string>)
    requires |ga| == |a| && |gb| == |b| && GapsOk(a, ga) && GapsOk(b, gb)
    ensures GapsOk(a + b, ga + gb)
    ensures Layout(a + b, ga + gb) == Layout(a, ga) + Layout(b, gb)
  {
    LayoutAppend(a, ga, b, gb);
    forall i | 0 <= i < |a + b|
      ensures AllSpace((ga + gb)[i]) && ((ga + gb)[i] != [] ==> (a + b)[i].Matched?)
    {
      if i >= |a| {
        assert (ga + gb)[i] == gb[i - |a|] && (a + b)[i] == b[i - |a|];
      } else {
        assert (ga + gb)[i] == ga[i] && (a + b)[i] == a[i];
      }
    }
  }

  /**
   * `text` is the sources of `segs` in order, each followed by its gap of
   * whitespace, then trailing whitespace `trail`; a gap is non-empty only
   * after a match, and the trail only when some segment is a match.
   */
  ghost predicate LaidOut(segs: seq<Segment>, text: string, gaps: seq<string>, trail: string)
  {
    && |gaps| == |segs| && GapsOk(segs, gaps)
    && AllSpace(trail) && (trail != [] ==> exists i :: 0 <= i < |segs| && segs[i].Matched?)
    && text == Layout(segs, gaps) + trail
  }

  /** On a match, the layout of what follows extends to the layout of the whole. */
  lemma MatchedLayout(unmatched: string, q: string, m: string, display: string,
                      rest: seq<Segment>, restGaps: seq<string>, restTrail: string)
    returns (gaps: seq<string>, trail: string)
    requires m <= q
    requires LaidOut(rest, Trim(q[|m|..]), restGaps, restTrail)
    ensures LaidOut(Flush(unmatched) + [Matched(m, display)] + rest, unmatched + q, gaps, trail)
  {
    var emitted := Flush(unmatched) + [Matched(m, display)];
    var after := q[|m|..];
    var lead, trail0 := TrimSplit(after);
    var emittedGaps := EmittedLayout(unmatched, m, display, lead);
    CombineLayout(emitted, emittedGaps, rest, restGaps);
    AllSpaceAppend(restTrail, trail0);
    gaps, trail := emittedGaps + restGaps, restTrail + trail0;
    var lr := Layout(rest, restGaps);
    PrefixSplit(m, q);
    MatchedText(unmatched, q, m, after, lead, trail0, lr, restTrail);
    assert unmatched + q == Layout(emitted + rest, gaps) + trail;
    assert (emitted + rest)[|Flush(unmatched)|] == emitted[|Flush(unmatched)|];
  }

  // `PrefixSplit`, `MatchedText`, `ShiftFirst` and `Associate5` each state one
  // sequence equation of the layout proofs on its own: asserted inline in
  // those proofs, the equations make the solver's search far more expensive.

  /** A prefix and what follows it make up the whole. */
  lemma PrefixSplit(m: string, q: string)
    requires m <= q
    ensures q == m + q[|m|..]
  {
    assert q == q[..|m|] + q[|m|..];
  }

  /** The text equation behind `MatchedLayout`. */
  lemma MatchedText(unmatched: string, q: string, m: string, after: string, lead: string,
                    trail0: string, lr: string, restTrail: string)
    requires q == m + after
    requires after == lead + (lr + restTrail) + trail0
    ensures unmatched + q == (unmatched + m + lead) + lr + (restTrail + trail0)
  {
    Associate5(unmatched, m, lead, lr, restTrail, trail0);
  }

  /** Moving the first character of `q` to the end of `u` keeps `u + q`. */
  lemma ShiftFirst(u: string, q: string)
    requires q != []
    ensures u + q == (u + [q[0]]) + q[1..]
  {
    assert q == [q[0]] + q[1..];
  }

  /** Regrouping a concatenation of six strings. */
  lemma Associate5(a: string, b: string, c: string, d: string, e: string, f: string)
    ensures a + (b + (c + (d + e) + f)) == (a + b + c) + d + (e + f)
  {
  }

  /** The generalisation of `SegmentationLayout` to any state of the loop. */
  lemma {:induction false} TokensLayout(d: Dict, q: string, unmatched: string) returns (gaps: seq<string>, trail: string)
    ensures LaidOut(Tokens(d, q, unmatched), unmatched + q, gaps, trail)
    decreases |q|, 1
  {
    if q == [] {
      gaps, trail := if unmatched == [] then [] else [[]], [];
      assert unmatched + q == unmatched;
    } else if BestMatch(d, q).0 == [] {
      gaps, trail := NoMatchLayout(d, q, unmatched);
    } else {
      gaps, trail := MatchLayout(d, q, unmatched);
    }
  }

  lemma {:induction false} NoMatchLayout(d: Dict, q: string, unmatched: string) returns (gaps: seq<string>, trail: string)
    requires q != [] && BestMatch(d, q).0 == []
    ensures LaidOut(Tokens(d, q, unmatched), unmatched + q, gaps, trail)
    decreases |q|, 0
  {
    var run, rest := unmatched + [q[0]], q[1..];
    NoMatchStep(d, q, unmatched);
    ShiftFirst(unmatched, q);
    gaps, trail := TokensLayout(d, rest, run);
  }

  lemma {:induction false} MatchLayout(d: Dict, q: string, unmatched: string) returns (gaps: seq<string>, trail: string)
    requires BestMatch(d, q).0 != []
    ensures LaidOut(Tokens(d, q, unmatched), unmatched + q, gaps, trail)
    decreases |q|, 0
  {
    var (m, t) := BestMatch(d, q);
    var rest := Trim(q[|m|..]);
    MatchStep(d, q, unmatched, m, t, rest);
    var restGaps, restTrail := TokensLayout(d, rest, []);
    assert [] + rest == rest;
    gaps, trail := MatchedLayout(unmatched, q, m, t, Tokens(d, rest, []), restGaps, restTrail);
  }

  /**
   * The query is its segments' sources in order, each followed by a gap of
   * whitespace, then trailing whitespace: nothing but whitespace is dropped,
   * a gap is non-empty only after a match, and trailing whitespace is
   * dropped only when some segment is a match.
   */
  lemma SegmentationLayout(d: Dict, s: string) returns (gaps: seq<string>, trail: string)
    ensures |gaps| == |Segmentation(d, s)| && GapsOk(Segmentation(d, s), gaps)
    ensures AllSpace(trail) && (trail != [] ==> exists i :: 0 <= i < |Segmentation(d, s)| && Segmentation(d, s)[i].Matched?)
    ensures s == Layout(Segmentation(d, s), gaps) + trail
  {
    gaps, trail := TokensLayout(d, s, []);
    assert [] + s == s;
  }

  // ---------------------------------------------------------------------------
  // A query no key matches

  /** No non-empty key starts anywhere in `q`. */
  ghost predicate NoKeyIn(d: Dict, q: string)
  {
    forall e, j :: e in d && 0 <= j < |q| && e.0 != [] ==> !(e.0 <= q[j..])
  }

  lemma {:induction false} TokensNoMatch(d: Dict, q: string, unmatched: string)
    requires NoKeyIn(d, q)
    ensures Tokens(d, q, unmatched) == Flush(unmatched + q)
    decreases |q|
  {
    if q == [] {
      assert unmatched + q == unmatched;
    } else {
      assert BestMatch(d, q).0 == [] by {
        assert q[0..] == q;
      }
      assert NoKeyIn(d, q[1..]) by {
        forall e, j | e in d && 0 <= j < |q[1..]| && e.0 != []
          ensures !(e.0 <= q[1..][j..])
        {
          assert q[1..][j..] == q[j + 1..];
        }
      }
      NoMatchStep(d, q, unmatched);
      TokensNoMatch(d, q[1..], unmatched + [q[0]]);
      ShiftFirst(unmatched, q);
    }
  }

  /** When no key matches anywhere (an empty dictionary, say), the query is one unmatched run, or nothing. */
  lemma SegmentationNoMatch(d: Dict, s: string)
    requires NoKeyIn(d, s)
    ensures Segmentation(d, s) == if s == [] then [] else [Literal(s)]
  {
    TokensNoMatch(d, s, []);
    assert [] + s == s;
  }

  // ---------------------------------------------------------------------------
  // Re-segmenting joined sources

  /** The first element of every entry: the texts the click handler joins. */
  function Sources(segs: seq<Segment>): (r: seq<string>)
    ensures |r| == |segs| && forall i :: 0 <= i < |segs| ==> r[i] == segs[i].source
  {
    if segs == [] then [] else [segs[0].source] + Sources(segs[1..])
  }

  /** Every key is free of whitespace. */
  ghost predicate SpacelessKeys(d: Dict)
  {
    forall e :: e in d ==> NoSpace(e.0)
  }

  /** Text after a spaceless match never changes which keys start the query. */
  lemma MatchBeforeSpace(d: Dict, m: string, after: string)
    requires SpacelessKeys(d)
    requires after == [] || IsSpace(after[0])
    ensures BestMatch(d, m + after) == BestMatch(d, m)
  {
    var j := m + after;
    forall e | e in d
      ensures e.0 <= j <==> e.0 <= m
    {
      if |e.0| > |m| && after != [] {
        assert j[|m|] == after[0];
        assert e.0[|m|] != j[|m|];
      } else if e.0 <= j {
        assert e.0 == j[..|e.0|] == m[..|e.0|];
      }
      if e.0 <= m {
        assert e.0 == m[..|e.0|] == j[..|e.0|];
      }
    }
    LongestSameCandidates(d, j, m, ("", ""));
  }

  /** One step of the rejoin: a well-formed match followed by a space and a trimmed tail. */
  lemma RejoinStep(d: Dict, m: string, t: string, tail: string)
    requires SpacelessKeys(d)
    requires SegmentOk(d, Matched(m, t))
    requires Trimmed(tail)
    ensures Tokens(d, m + SpaceBefore(tail), []) == [Matched(m, t)] + Tokens(d, tail, [])
  {
    var joined := m + SpaceBefore(tail);
    assert IsSpace(' ');
    MatchBeforeSpace(d, m, SpaceBefore(tail));
    assert joined[|m|..] == SpaceBefore(tail);
    TrimSpaceBefore(tail);
    assert Advance(d, joined, []) == Progress([Matched(m, t)], tail, []);
  }

  /**
   * Joining the sources of well-formed matches with single spaces and
   * segmenting again gives the same matches back, when no key holds
   * whitespace.
   */
  lemma {:induction false} RejoinMatched(d: Dict, segs: seq<Segment>)
    requires SpacelessKeys(d)
    requires forall s :: s in segs ==> s.Matched? && SegmentOk(d, s)
    ensures Segmentation(d, Join(Sources(segs), " ")) == segs
  {
    if segs != [] {
      var m, t, rest := segs[0].source, segs[0].display, segs[1..];
      MatchesTail(d, segs);
      RejoinMatched(d, rest);
      var tail := Join(Sources(rest), " ");
      MatchedSourcesTrimmed(d, rest);
      JoinSources(segs);
      RejoinStep(d, m, t, tail);
      calc {
        Segmentation(d, Join(Sources(segs), " "));
        Tokens(d, m + SpaceBefore(tail), []);
        [Matched(m, t)] + Tokens(d, tail, []);
        [Matched(m, t)] + rest;
        segs;
      }
    }
  }

  /** The first of several well-formed matches, and the matches after it. */
  lemma MatchesTail(d: Dict, segs: seq<Segment>)
    requires segs != []
    requires forall s :: s in segs ==> s.Matched? && SegmentOk(d, s)
    ensures segs[0] == Matched(segs[0].source, segs[0].display) && SegmentOk(d, segs[0])
    ensures forall s :: s in segs[1..] ==> s.Matched? && SegmentOk(d, s)
    ensures segs == [segs[0]] + segs[1..]
  {
    assert segs[0] in segs;
    assert forall s :: s in segs[1..] ==> s in segs;
  }


  lemma JoinSources(segs: seq<Segment>)
    requires segs != []
    requires |segs| > 1 ==> Join(Sources(segs[1..]), " ") != []
    ensures Join(Sources(segs), " ") == segs[0].source + SpaceBefore(Join(Sources(segs[1..]), " "))
  {
    var sources := Sources(segs);
    assert sources[1..] == Sources(segs[1..]);
    JoinSpace(sources);
  }

  /** The sources of well-formed matches are non-empty and free of whitespace, so they join to a trimmed string. */
  lemma MatchedSourcesTrimmed(d: Dict, segs: seq<Segment>)
    requires SpacelessKeys(d)
    requires forall s :: s in segs ==> s.Matched? && SegmentOk(d, s)
    ensures Trimmed(Join(Sources(segs), " "))
    ensures segs != [] ==> Join(Sources(segs), " ") != []
  {
    var sources := Sources(segs);
    forall p | p in sources ensures p != [] && Trimmed(p) {
      var i :| 0 <= i < |sources| && sources[i] == p;
      assert segs[i] in segs;
    }
    JoinTrimmed(sources, " ");
  }
}
