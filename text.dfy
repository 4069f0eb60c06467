/**
 * The JavaScript string operations the core relies on: `String.prototype.trim`
 * and `Array.prototype.join`. Strings are sequences of characters.
 */
module Text {

  /**
   * The characters `trim` strips: the ECMAScript WhiteSpace and
   * LineTerminator code points (tab, line tabulation, form feed, space,
   * no-break space, byte order mark, the Unicode space separators, line feed,
   * carriage return, line and paragraph separators).
   */
  const Whitespace: set<char> := {
    '\t', '\n', '\U{000B}', '\U{000C}', '\r', ' ', '\U{00A0}', '\U{1680}',
    '\U{2000}', '\U{2001}', '\U{2002}', '\U{2003}', '\U{2004}', '\U{2005}',
    '\U{2006}', '\U{2007}', '\U{2008}', '\U{2009}', '\U{200A}',
    '\U{2028}', '\U{2029}', '\U{202F}', '\U{205F}', '\U{3000}', '\U{FEFF}'
  }

  predicate IsSpace(c: char)
  {
    c in Whitespace
  }

  ghost predicate AllSpace(s: string)
  {
    forall i :: 0 <= i < |s| ==> IsSpace(s[i])
  }

  ghost predicate NoSpace(s: string)
  {
    forall i :: 0 <= i < |s| ==> !IsSpace(s[i])
  }

  lemma AllSpaceAppend(a: string, b: string)
    requires AllSpace(a) && AllSpace(b)
    ensures AllSpace(a + b)
  {
    forall i | 0 <= i < |a + b| ensures IsSpace((a + b)[i]) {
      if i >= |a| { assert (a + b)[i] == b[i - |a|]; } else { assert (a + b)[i] == a[i]; }
    }
  }

  /** The number of whitespace characters `s` starts with. */
  function LeadingSpace(s: string): (n: nat)
    ensures n <= |s|
    ensures n < |s| ==> !IsSpace(s[n])
    ensures forall i :: 0 <= i < n ==> IsSpace(s[i])
  {
    if s != [] && IsSpace(s[0]) then 1 + LeadingSpace(s[1..]) else 0
  }

  /** The number of whitespace characters `s` ends with. */
  function TrailingSpace(s: string): (n: nat)
    ensures n <= |s|
    ensures n < |s| ==> !IsSpace(s[|s| - 1 - n])
    ensures forall i :: |s| - n <= i < |s| ==> IsSpace(s[i])
  {
    if s != [] && IsSpace(s[|s| - 1]) then 1 + TrailingSpace(s[..|s| - 1]) else 0
  }

  /** `s.trim()`: what is left neither starts nor ends with whitespace. */
  function Trim(s: string): (r: string)
    ensures |r| <= |s|
    ensures Trimmed(r)
  {
    var a := LeadingSpace(s);
    s[a..|s| - TrailingSpace(s[a..])]
  }

  /**
   * `s` is its trim with whitespace on either side: `s.trim()` removes
   * whitespace and nothing else.
   */
  lemma TrimSplit(s: string) returns (lead: string, trail: string)
    ensures s == lead + Trim(s) + trail
    ensures AllSpace(lead) && AllSpace(trail)
  {
    var a := LeadingSpace(s);
    var b := |s| - TrailingSpace(s[a..]);
    lead, trail := s[..a], s[b..];
    assert s == s[..a] + s[a..b] + s[b..];
  }

  /** A string is trimmed when it neither starts nor ends with whitespace. */
  predicate Trimmed(s: string)
  {
    s == [] || (!IsSpace(s[0]) && !IsSpace(s[|s| - 1]))
  }

  /**
   * The converse of `TrimSplit`: whatever trimmed middle is wrapped in
   * whitespace, `trim` gives that middle back.
   */
  lemma TrimUnique(lead: string, m: string, trail: string)
    requires AllSpace(lead) && AllSpace(trail) && Trimmed(m)
    ensures Trim(lead + m + trail) == m
  {
    var s := lead + m + trail;
    var a := LeadingSpace(s);
    if m == [] {
      assert AllSpace(s) by {
        forall i | 0 <= i < |s| ensures IsSpace(s[i]) {
          if i < |lead| { assert s[i] == lead[i]; } else { assert s[i] == trail[i - |lead|]; }
        }
      }
      assert a == |s|;
      assert s[a..] == [];
    } else {
      assert s[|lead|] == m[0];
      assert a == |lead|;
      var rest := s[a..];
      assert rest == m + trail;
      var n := TrailingSpace(rest);
      assert rest[|m| - 1] == m[|m| - 1];
      assert n == |trail|;
      assert s[a..|s| - n] == m;
    }
  }

  /** `parts.join(sep)`. */
  function Join(parts: seq<string>, sep: string): string
  {
    if parts == [] then []
    else if |parts| == 1 then parts[0]
    else parts[0] + sep + Join(parts[1..], sep)
  }

  /** Joining non-empty trimmed parts gives a trimmed string, non-empty when there are parts. */
  lemma {:induction false} JoinTrimmed(parts: seq<string>, sep: string)
    requires forall p :: p in parts ==> p != [] && Trimmed(p)
    ensures Trimmed(Join(parts, sep))
    ensures parts != [] ==> Join(parts, sep) != []
  {
    if |parts| > 1 {
      assert parts[0] in parts;
      assert forall p :: p in parts[1..] ==> p in parts;
      JoinTrimmed(parts[1..], sep);
      var s := Join(parts, sep);
      var rest := Join(parts[1..], sep);
      assert s == parts[0] + sep + rest;
      assert s[0] == parts[0][0];
      assert s[|s| - 1] == rest[|rest| - 1];
    } else if parts != [] {
      assert parts[0] in parts;
    }
  }

  /** The separator `join(" ")` puts before a further part: nothing when there is none. */
  function SpaceBefore(s: string): string
  {
    if s == [] then [] else [' '] + s
  }

  /** Trimming removes the separator again. */
  lemma TrimSpaceBefore(s: string)
    requires Trimmed(s)
    ensures Trim(SpaceBefore(s)) == s
  {
    if s == [] {
      TrimUnique([], [], []);
    } else {
      assert AllSpace([' ']);
      assert SpaceBefore(s) == [' '] + s + [];
      TrimUnique([' '], s, []);
    }
  }

  /** `parts.join(" ")` is the first part, then a space and the rest when the rest is not empty. */
  lemma JoinSpace(parts: seq<string>)
    requires parts != []
    requires |parts| > 1 ==> Join(parts[1..], " ") != []
    ensures Join(parts, " ") == parts[0] + SpaceBefore(Join(parts[1..], " "))
  {
    if |parts| == 1 {
      assert parts[1..] == [];
      assert parts[0] + [] == parts[0];
    } else {
      JoinMore(parts);
      SpaceBeforeMore(Join(parts[1..], " "));
      Regroup3(parts[0], " ", Join(parts[1..], " "));
    }
  }

  // The three lemmas below each state one unfolding or regrouping step of
  // `JoinSpace` on its own: asserted inline, the sequence equalities make
  // the solver's search far more expensive.

  /** One unfolding of `Join` with a space. */
  lemma JoinMore(parts: seq<string>)
    requires |parts| > 1
    ensures Join(parts, " ") == parts[0] + " " + Join(parts[1..], " ")
  {
  }

  /** One unfolding of `SpaceBefore`. */
  lemma SpaceBeforeMore(s: string)
    requires s != []
    ensures SpaceBefore(s) == " " + s
  {
  }

  /** Concatenation regroups. */
  lemma Regroup3(a: string, b: string, c: string)
    ensures a + b + c == a + (b + c)
  {
  }

  // ---------------------------------------------------------------------------
  // Setting the value of a text input

  /** Line feed and carriage return, the characters a single-line input cannot hold. */
  predicate IsLineBreak(c: char)
  {
    c == '\n' || c == '\r'
  }

  ghost predicate LineFree(s: string)
  {
    forall i :: 0 <= i < |s| ==> !IsLineBreak(s[i])
  }

  /**
   * The value sanitization of an `<input type="text">`: assigning `s` to its
   * `value` stores `s` with every line feed and carriage return removed.
   */
  function StripNewlines(s: string): (r: string)
    ensures |r| <= |s|
  {
    if s == [] then []
    else (if IsLineBreak(s[0]) then [] else [s[0]]) + StripNewlines(s[1..])
  }

  /** The stored value holds no line break. */
  lemma {:induction false} StripNewlinesLineFree(s: string)
    ensures LineFree(StripNewlines(s))
  {
    if s != [] {
      StripNewlinesLineFree(s[1..]);
      var head := if IsLineBreak(s[0]) then [] else [s[0]];
      var r := StripNewlines(s);
      forall i | 0 <= i < |r| ensures !IsLineBreak(r[i]) {
        if i >= |head| { assert r[i] == StripNewlines(s[1..])[i - |head|]; }
      }
    }
  }

  /** A text without line breaks is stored unchanged. */
  lemma {:induction false} StripNewlinesKeeps(s: string)
    requires LineFree(s)
    ensures StripNewlines(s) == s
  {
    if s != [] {
      assert !IsLineBreak(s[0]);
      StripNewlinesKeeps(s[1..]);
      assert s == [s[0]] + s[1..];
    }
  }

  /** Characters are removed one by one, independently of their neighbours. */
  lemma {:induction false} StripNewlinesAppend(a: string, b: string)
    ensures StripNewlines(a + b) == StripNewlines(a) + StripNewlines(b)
  {
    if a != [] {
      assert (a + b)[0] == a[0] && (a + b)[1..] == a[1..] + b;
      StripNewlinesAppend(a[1..], b);
    } else {
      assert a + b == b;
    }
  }

  /** Line breaks are whitespace, so a text without whitespace has none. */
  lemma NoSpaceLineFree(s: string)
    requires NoSpace(s)
    ensures LineFree(s)
  {
    assert IsSpace('\n') && IsSpace('\r');
  }

  /** Joining texts without line breaks by a separator without them gives a text without them. */
  lemma {:induction false} JoinLineFree(parts: seq<string>, sep: string)
    requires LineFree(sep) && forall p :: p in parts ==> LineFree(p)
    ensures LineFree(Join(parts, sep))
  {
    if |parts| > 1 {
      assert parts[0] in parts;
      assert forall p :: p in parts[1..] ==> p in parts;
      JoinLineFree(parts[1..], sep);
      LineFreeAppend(parts[0], sep);
      LineFreeAppend(parts[0] + sep, Join(parts[1..], sep));
    } else if parts != [] {
      assert parts[0] in parts;
    }
  }

  lemma LineFreeAppend(a: string, b: string)
    requires LineFree(a) && LineFree(b)
    ensures LineFree(a + b)
  {
    forall i | 0 <= i < |a + b| ensures !IsLineBreak((a + b)[i]) {
      if i >= |a| { assert (a + b)[i] == b[i - |a|]; } else { assert (a + b)[i] == a[i]; }
    }
  }

  /** A trimmed text stays trimmed: its first and last characters are whitespace, so never removed. */
  lemma StripNewlinesTrimmed(s: string)
    requires Trimmed(s)
    ensures Trimmed(StripNewlines(s))
  {
    assert IsSpace('\n') && IsSpace('\r');
    if |s| >= 2 {
      var mid := s[1..|s| - 1];
      assert s == [s[0]] + mid + [s[|s| - 1]];
      StripNewlinesAppend([s[0]] + mid, [s[|s| - 1]]);
      StripNewlinesAppend([s[0]], mid);
      assert StripNewlines([s[0]]) == [s[0]];
      assert StripNewlines([s[|s| - 1]]) == [s[|s| - 1]];
    } else if |s| == 1 {
      assert StripNewlines(s) == s;
    }
  }
}
