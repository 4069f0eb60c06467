/**
 * The query editor of the shop section (src/ui.ts): the text of the search
 * input, the dictionary built once from the page's terms, and the segments
 * last shown under the input. Typing, clicking a shown segment and clicking
 * a term all overwrite the query and segment it again.
 */
module QueryEditor {
  import opened Text
  import opened Scrape
  import opened Dictionary
  import opened Tokenizer

  /**
   * The query a click on segment `i` writes: every other segment's source,
   * joined by single spaces, as the text input stores it.
   */
  function RemovedQuery(segs: seq<Segment>, i: nat): string
    requires i < |segs|
  {
    StripNewlines(Join(Sources(segs[..i] + segs[i + 1..]), " "))
  }

  /** What `addTerm` writes into the input: `trim(query + " " + term)`, as the text input stores it. */
  function AddedQuery(query: string, term: string): string
  {
    StripNewlines(Trim(query + " " + term))
  }

  /** The state `queryTranslator` closes over: the input's value, the dictionary and the shown segments. */
  class Editor {
    const dict: Dict
    var query: string
    var segments: seq<Segment>

    /** The segments shown are those of the current query. */
    ghost predicate Valid()
      reads this
    {
      segments == Segmentation(dict, query)
    }

    /** `createQuerySection`: an empty input over the dictionary of the page's terms. */
    constructor (terms: Terms)
      ensures dict == Dictionary.Dictionary(terms)
      ensures query == [] && segments == []
      ensures Valid()
    {
      var built := BuildDictionary(terms);
      dict := built;
      query := [];
      segments := [];
    }

    /** `updateTranslation`: segment the current query again. */
    method UpdateTranslation()
      modifies this
      ensures query == old(query)
      ensures segments == Segmentation(dict, query)
    {
      segments := Tokenize(dict, query);
    }

    /** The `input` event: the user typed `value`. */
    method Input(value: string)
      modifies this
      ensures query == value
      ensures Valid()
    {
      query := value;
      UpdateTranslation();
    }

    /** The click handler of shown segment `i`. */
    method RemoveSegment(i: nat)
      requires i < |segments|
      modifies this
      ensures query == RemovedQuery(old(segments), i)
      ensures Valid()
    {
      var shown := segments;
      var parts: seq<string> := [];
      for j := 0 to |shown|
        invariant |parts| == if j <= i then j else j - 1
        invariant forall k :: 0 <= k < |parts| && k < i ==> parts[k] == shown[k].source
        invariant forall k :: i <= k < |parts| ==> parts[k] == shown[k + 1].source
      {
        if j != i {
          parts := parts + [shown[j].source];
        }
      }
      ghost var others := shown[..i] + shown[i + 1..];
      assert parts == Sources(others) by {
        forall k | 0 <= k < |parts| ensures parts[k] == Sources(others)[k] {
          if k < i { assert others[k] == shown[k]; } else { assert others[k] == shown[k + 1]; }
        }
      }
      query := StripNewlines(Join(parts, " "));
      UpdateTranslation();
    }

    /** `addTerm`: append a space and `term`, trim, and segment again. */
    method AddTerm(term: string)
      modifies this
      ensures query == AddedQuery(old(query), term)
      ensures Valid()
    {
      var added := query + " " + term;
      query := StripNewlines(Trim(added));
      UpdateTranslation();
    }
  }

  /**
   * When every shown segment is a match and no key holds whitespace, a click
   * on segment `i` leaves exactly the other segments, in order.
   */
  lemma RemovalKeepsOthers(d: Dict, q: string, i: nat)
    requires SpacelessKeys(d)
    requires i < |Segmentation(d, q)|
    requires forall s :: s in Segmentation(d, q) ==> s.Matched?
    ensures Segmentation(d, RemovedQuery(Segmentation(d, q), i))
         == Segmentation(d, q)[..i] + Segmentation(d, q)[i + 1..]
  {
    var segs := Segmentation(d, q);
    SegmentationShape(d, q);
    var others := segs[..i] + segs[i + 1..];
    assert forall s :: s in others ==> s in segs;
    RejoinMatched(d, others);
    forall p | p in Sources(others) ensures LineFree(p) {
      var k :| 0 <= k < |others| && Sources(others)[k] == p;
      assert others[k] in segs && (p, others[k].display) in d;
      NoSpaceLineFree(p);
    }
    JoinLineFree(Sources(others), " ");
    StripNewlinesKeeps(Join(Sources(others), " "));
  }

  /**
   * Without those conditions a click can change segments it did not touch:
   * with the one key "ab", the query "xabab" shows an unmatched "x" and two
   * matches; removing the last match writes "x ab", whose unmatched run is
   * "x " with the joining space in it.
   */
  lemma RemovalCanChangeOthers()
    ensures var d := [("ab", "X")];
      var shown := Segmentation(d, "xabab");
      shown == [Literal("x"), Matched("ab", "X"), Matched("ab", "X")]
      && RemovedQuery(shown, 2) == "x ab"
      && Segmentation(d, RemovedQuery(shown, 2)) == [Literal("x "), Matched("ab", "X")]
      && Segmentation(d, RemovedQuery(shown, 2)) != shown[..2] + shown[3..]
  {
    assert !IsSpace('a') && !IsSpace('b');
    RemovalMergesSpace('x', 'a', 'b', "X");
    assert [Literal("x "), Matched("ab", "X")][0] != [Literal("x"), Matched("ab", "X")][0];
  }

  /** The same run for any unmatched character `x` before two copies of a two-character key `[a, b]`. */
  lemma RemovalMergesSpace(x: char, a: char, b: char, v: string)
    requires x != a && !IsLineBreak(x) && !IsSpace(a) && !IsSpace(b)
    ensures var d := [([a, b], v)];
      var shown := Segmentation(d, [x, a, b, a, b]);
      shown == [Literal([x]), Matched([a, b], v), Matched([a, b], v)]
      && RemovedQuery(shown, 2) == [x, ' ', a, b]
      && Segmentation(d, [x, ' ', a, b]) == [Literal([x, ' ']), Matched([a, b], v)]
  {
    ShownBeforeRemoval(x, a, b, v);
    RemovedLastMatch(x, a, b, v);
    ShownAfterRemoval(x, a, b, v);
  }

  lemma RemovedLastMatch(x: char, a: char, b: char, v: string)
    requires !IsLineBreak(x) && !IsSpace(a) && !IsSpace(b)
    ensures RemovedQuery([Literal([x]), Matched([a, b], v), Matched([a, b], v)], 2) == [x, ' ', a, b]
  {
    var segs := [Literal([x]), Matched([a, b], v), Matched([a, b], v)];
    var others := [Literal([x]), Matched([a, b], v)];
    assert segs[..2] + segs[3..] == others;
    assert Sources(others) == [[x], [a, b]];
    assert [[x], [a, b]][1..] == [[a, b]];
    assert Join([[x], [a, b]], " ") == [x] + " " + [a, b] == [x, ' ', a, b];
    assert IsSpace('\n') && IsSpace('\r');
    assert LineFree([x, ' ', a, b]);
    StripNewlinesKeeps([x, ' ', a, b]);
  }

  lemma ShownBeforeRemoval(x: char, a: char, b: char, v: string)
    requires x != a && !IsSpace(a) && !IsSpace(b)
    ensures Segmentation([([a, b], v)], [x, a, b, a, b])
         == [Literal([x]), Matched([a, b], v), Matched([a, b], v)]
  {
    var d := [([a, b], v)];
    var key := [a, b];
    var q := [x, a, b, a, b];
    assert key[0] != q[0];
    SingleKey(key, v, q);
    NoMatchStep(d, q, []);
    assert q[1..] == key + key && [] + [x] == [x];
    KeyTwice(a, b, v, [x]);
  }

  lemma KeyTwice(a: char, b: char, v: string, unmatched: string)
    requires unmatched != [] && !IsSpace(a) && !IsSpace(b)
    ensures Tokens([([a, b], v)], [a, b, a, b], unmatched)
         == [Literal(unmatched), Matched([a, b], v), Matched([a, b], v)]
  {
    var d := [([a, b], v)];
    var q := [a, b, a, b];
    var hit := Matched([a, b], v);
    KeyTwiceMatch(a, b, v);
    MatchStep(d, q, unmatched, [a, b], v, [a, b]);
    KeyOnce(a, b, v, []);
    calc {
      Tokens(d, q, unmatched);
      Flush(unmatched) + [hit] + Tokens(d, [a, b], []);
      [Literal(unmatched)] + [hit] + (Flush([]) + [hit]);
      [Literal(unmatched), hit, hit];
    }
  }

  lemma KeyTwiceMatch(a: char, b: char, v: string)
    requires !IsSpace(a) && !IsSpace(b)
    ensures BestMatch([([a, b], v)], [a, b, a, b]) == ([a, b], v)
    ensures Trim([a, b, a, b][2..]) == [a, b]
  {
    var key := [a, b];
    assert [a, b, a, b] == key + key;
    SingleKey(key, v, key + key);
    assert (key + key)[2..] == key;
    TrimUnique([], key, []);
    assert [] + key + [] == key;
  }

  lemma KeyOnce(a: char, b: char, v: string, unmatched: string)
    ensures Tokens([([a, b], v)], [a, b], unmatched) == Flush(unmatched) + [Matched([a, b], v)]
  {
    var d := [([a, b], v)];
    var key := [a, b];
    SingleKey(key, v, key);
    assert key[2..] == [];
    TrimUnique([], [], []);
    MatchStep(d, key, unmatched, key, v, []);
  }

  lemma ShownAfterRemoval(x: char, a: char, b: char, v: string)
    requires x != a && !IsSpace(a) && !IsSpace(b)
    ensures Segmentation([([a, b], v)], [x, ' ', a, b]) == [Literal([x, ' ']), Matched([a, b], v)]
  {
    assert IsSpace(' ');
    var d := [([a, b], v)];
    var key := [a, b];
    var q := [x, ' ', a, b];
    assert key[0] != q[0];
    SingleKey(key, v, q);
    NoMatchStep(d, q, []);
    assert q[1..] == [' '] + key && [] + [x] == [x];
    assert key[0] != ([' '] + key)[0];
    SingleKey(key, v, [' '] + key);
    NoMatchStep(d, [' '] + key, [x]);
    assert ([' '] + key)[1..] == key && [x] + [' '] == [x, ' '];
    KeyOnce(a, b, v, [x, ' ']);
  }

  /**
   * The text `addTerm` trims keeps the trimmed old query and the trimmed
   * term, in that order, with at least the space it inserted between them
   * when both are non-empty; when one of them is blank the result is the
   * other trimmed. Whitespace inside the old query is kept as it is.
   */
  lemma AddedQueryParts(query: string, term: string) returns (gap: string)
    ensures AllSpace(gap)
    ensures Trim(query) == [] ==> Trim(query + " " + term) == Trim(term)
    ensures Trim(term) == [] ==> Trim(query + " " + term) == Trim(query)
    ensures Trim(query) != [] && Trim(term) != [] ==>
      |gap| >= 1 && Trim(query + " " + term) == Trim(query) + gap + Trim(term)
  {
    var l1, t1 := TrimSplit(query);
    var l2, t2 := TrimSplit(term);
    gap := JoinedTrim(l1, Trim(query), t1, l2, Trim(term), t2);
  }

  lemma JoinedTrim(l1: string, a: string, t1: string, l2: string, b: string, t2: string) returns (gap: string)
    requires AllSpace(l1) && AllSpace(t1) && AllSpace(l2) && AllSpace(t2)
    requires Trimmed(a) && Trimmed(b)
    ensures AllSpace(gap) && |gap| >= 1
    ensures Trim(l1 + a + t1 + " " + (l2 + b + t2)) ==
      if a == [] then b else if b == [] then a else a + gap + b
  {
    gap := SpaceBetween(t1, l2);
    var s := l1 + a + t1 + " " + (l2 + b + t2);
    assert s == l1 + a + gap + b + t2;
    if a == [] {
      AllSpaceAppend(l1, gap);
      assert s == (l1 + gap) + b + t2;
      TrimUnique(l1 + gap, b, t2);
    } else if b == [] {
      AllSpaceAppend(gap, t2);
      assert s == l1 + a + (gap + t2);
      TrimUnique(l1, a, gap + t2);
    } else {
      TrimmedAround(a, gap, b);
      assert s == l1 + (a + gap + b) + t2;
      TrimUnique(l1, a + gap + b, t2);
    }
  }

  lemma SpaceBetween(t1: string, l2: string) returns (gap: string)
    requires AllSpace(t1) && AllSpace(l2)
    ensures gap == t1 + " " + l2 && AllSpace(gap) && |gap| >= 1
  {
    assert AllSpace(" ");
    AllSpaceAppend(t1, " ");
    AllSpaceAppend(t1 + " ", l2);
    gap := t1 + " " + l2;
  }

  lemma TrimmedAround(a: string, gap: string, b: string)
    requires a != [] && b != [] && Trimmed(a) && Trimmed(b)
    ensures Trimmed(a + gap + b)
  {
    var mid := a + gap + b;
    assert mid[0] == a[0] && mid[|mid| - 1] == b[|b| - 1];
  }

  /** The stored query is trimmed and holds no line break. */
  lemma AddedQueryShape(query: string, term: string)
    ensures Trimmed(AddedQuery(query, term)) && LineFree(AddedQuery(query, term))
  {
    StripNewlinesTrimmed(Trim(query + " " + term));
    StripNewlinesLineFree(Trim(query + " " + term));
  }

  /** Without line breaks in the query and the term, the input stores `trim(query + " " + term)` itself. */
  lemma AddedQueryLineFree(query: string, term: string)
    requires LineFree(query) && LineFree(term)
    ensures AddedQuery(query, term) == Trim(query + " " + term)
  {
    var s := query + " " + term;
    LineFreeAppend(query, " ");
    LineFreeAppend(query + " ", term);
    var lead, trail := TrimSplit(s);
    var m := Trim(s);
    forall i | 0 <= i < |m| ensures !IsLineBreak(m[i]) {
      assert m[i] == s[|lead| + i];
    }
    StripNewlinesKeeps(m);
  }

  /**
   * A line break inside an added term is dropped, joining the text around
   * it: the term "a", line feed, "b" is stored as "ab".
   */
  lemma AddedTermLosesLineBreak(a: char, b: char)
    requires !IsSpace(a) && !IsSpace(b)
    ensures AddedQuery([], [a, '\n', b]) == [a, b]
  {
    var t := [a, '\n', b];
    assert IsSpace(' ') && IsLineBreak('\n');
    assert [] + " " + t == [' '] + t + [];
    assert AllSpace([' ']);
    TrimUnique([' '], t, []);
    assert !IsLineBreak(a) && !IsLineBreak(b);
    StripNewlinesAppend([a], ['\n', b]);
    StripNewlinesAppend(['\n'], [b]);
    assert t == [a] + (['\n'] + [b]);
    assert StripNewlines([a]) == [a];
    assert StripNewlines(['\n']) == [];
    assert StripNewlines([b]) == [b];
  }
}
