/** The Python string operations the analyzer relies on: `str.lower`
    (ASCII letters only), substring containment `needle in hay`,
    `str.endswith`, `str.strip()` and `str.split(sep)`. */
module Text {

  // ---------------------------------------------------------------------
  // Lowercasing

  /** `c.lower()` for ASCII: 'A'..'Z' become 'a'..'z', everything else is kept. */
  function LowerChar(c: char): (r: char)
    ensures r != c <==> 'A' <= c <= 'Z'
    ensures !('A' <= r <= 'Z')
  {
    if 'A' <= c <= 'Z' then (c as int + 32) as char else c
  }

  function Lower(s: string): (r: string)
    ensures |r| == |s|
    ensures forall k :: 0 <= k < |s| ==> r[k] == LowerChar(s[k])
  {
    seq(|s|, k requires 0 <= k < |s| => LowerChar(s[k]))
  }

  /** A string with no upper-case ASCII letter. */
  predicate IsLower(s: string) {
    forall k :: 0 <= k < |s| ==> !('A' <= s[k] <= 'Z')
  }

  /** Lowercasing produces a lower-case string and is a no-op on one,
      so lowering a second time changes nothing. */
  lemma LowerIsIdempotent(s: string)
    ensures IsLower(Lower(s))
    ensures IsLower(s) ==> Lower(s) == s
    ensures Lower(Lower(s)) == Lower(s)
  {
  }

  // ---------------------------------------------------------------------
  // Substring containment

  /** `needle` sits in `hay` starting at index `i`. */
  predicate OccursAt(needle: string, hay: string, i: int) {
    0 <= i && i + |needle| <= |hay| && hay[i..i + |needle|] == needle
  }

  /** Python's `needle in hay` for strings: some start position in `hay`
      begins a copy of `needle`. */
  predicate Contains(needle: string, hay: string) {
    exists i | 0 <= i <= |hay| - |needle| :: OccursAt(needle, hay, i)
  }

  /** A string is contained in itself. */
  lemma ContainsSelf(s: string)
    ensures Contains(s, s)
  {
    assert OccursAt(s, s, 0);
  }

  /** Containment is transitive. */
  lemma ContainsTransitive(a: string, b: string, c: string)
    requires Contains(a, b) && Contains(b, c)
    ensures Contains(a, c)
  {
    var i :| 0 <= i <= |b| - |a| && OccursAt(a, b, i);
    var j :| 0 <= j <= |c| - |b| && OccursAt(b, c, j);
    assert forall k :: 0 <= k < |a| ==> c[j + i + k] == b[i + k] == a[k];
    assert OccursAt(a, c, j + i);
  }

  /** A string is contained in anything built around it. */
  lemma ContainsMiddle(front: string, t: string, back: string)
    ensures Contains(t, front + t + back)
  {
    var s := front + t + back;
    assert s[|front|..|front| + |t|] == t;
    assert OccursAt(t, s, |front|);
  }

  /** A lower-case string found in a line is found in the lowercased line. */
  lemma LowerTermInLoweredLine(t: string, line: string, front: string, back: string)
    requires line == front + t + back && Lower(t) == t
    ensures Contains(t, Lower(line))
  {
    ContainsMiddle(front, t, back);
    ContainsLower(t, line);
  }

  /** A needle holding a character the haystack lacks is not contained. */
  lemma MissingCharNotContained(needle: string, hay: string, c: char)
    requires c in needle && c !in hay
    ensures !Contains(needle, hay)
  {
    ContainedCharsOccur(needle, hay);
  }

  /** Every character of a contained needle occurs in the haystack; so a
      needle holding a character the haystack lacks is not contained. */
  lemma ContainedCharsOccur(needle: string, hay: string)
    ensures Contains(needle, hay) ==> forall c :: c in needle ==> c in hay
  {
    if Contains(needle, hay) {
      var i :| 0 <= i <= |hay| - |needle| && OccursAt(needle, hay, i);
      forall c | c in needle ensures c in hay {
        var k :| 0 <= k < |needle| && needle[k] == c;
        assert hay[i + k] == c;
      }
    }
  }

  /** Containment survives lowercasing both sides. */
  lemma ContainsLower(needle: string, hay: string)
    requires Contains(needle, hay)
    ensures Contains(Lower(needle), Lower(hay))
  {
    var i :| 0 <= i <= |hay| - |needle| && OccursAt(needle, hay, i);
    assert Lower(hay)[i..i + |needle|] == Lower(needle);
    assert OccursAt(Lower(needle), Lower(hay), i);
  }

  // ---------------------------------------------------------------------
  // Suffixes

  /** Python's `s.endswith(suffix)`. */
  predicate EndsWith(s: string, suffix: string) {
    |suffix| <= |s| && s[|s| - |suffix|..] == suffix
  }

  /** `EndsWith` holds exactly when `s` is some string followed by `suffix`. */
  lemma EndsWithIff(s: string, suffix: string)
    ensures EndsWith(s, suffix) <==> exists front :: s == front + suffix
  {
    if EndsWith(s, suffix) {
      assert s == s[..|s| - |suffix|] + suffix;
    }
    if exists front :: s == front + suffix {
      var front :| s == front + suffix;
      assert s[|front|..] == suffix;
    }
  }

  // ---------------------------------------------------------------------
  // Whitespace stripping

  /** Python's `str.isspace()` for one character: the characters whose
      bidirectional class is WS, B or S, or whose category is Zs. */
  predicate IsSpace(c: char) {
    || ('\t' <= c <= '\r')
    || ('\U{1c}' <= c <= ' ')
    || c == '\U{85}' || c == '\U{a0}' || c == '\U{1680}'
    || ('\U{2000}' <= c <= '\U{200a}')
    || c == '\U{2028}' || c == '\U{2029}' || c == '\U{202f}' || c == '\U{205f}' || c == '\U{3000}'
  }

  predicate AllSpace(s: string) {
    forall k :: 0 <= k < |s| ==> IsSpace(s[k])
  }

  /** Neither end of `s` is whitespace (what `str.strip()` leaves). */
  predicate IsStripped(s: string) {
    |s| == 0 || (!IsSpace(s[0]) && !IsSpace(s[|s| - 1]))
  }

  /** Number of leading whitespace characters. */
  function LeadingSpace(s: string): (n: nat)
    ensures n <= |s|
    ensures forall k :: 0 <= k < n ==> IsSpace(s[k])
    ensures n < |s| ==> !IsSpace(s[n])
  {
    if |s| == 0 || !IsSpace(s[0]) then 0 else 1 + LeadingSpace(s[1..])
  }

  /** Number of trailing whitespace characters. */
  function TrailingSpace(s: string): (n: nat)
    ensures n <= |s|
    ensures forall k :: |s| - n <= k < |s| ==> IsSpace(s[k])
    ensures n < |s| ==> !IsSpace(s[|s| - n - 1])
  {
    if |s| == 0 || !IsSpace(s[|s| - 1]) then 0 else 1 + TrailingSpace(s[..|s| - 1])
  }

  /** Python's `s.strip()`: `s` without its leading and trailing whitespace. */
  function Strip(s: string): string {
    var rest := s[LeadingSpace(s)..];
    rest[..|rest| - TrailingSpace(rest)]
  }

  /** What `Strip` leaves: no whitespace at either end, a contiguous part of
      the input with only whitespace around it, and nothing at all exactly
      when the input is all whitespace. */
  lemma StripSpec(s: string)
    ensures IsStripped(Strip(s))
    ensures exists i :: OccursAt(Strip(s), s, i) && AllSpace(s[..i]) && AllSpace(s[i + |Strip(s)|..])
    ensures Strip(s) == "" <==> AllSpace(s)
  {
    var a := LeadingSpace(s);
    var rest := s[a..];
    var r := rest[..|rest| - TrailingSpace(rest)];
    assert r == Strip(s);
    StripEnds(s, a, rest, r);
    StripOccurs(s, a, rest, r);
    StripEmpty(s, a, rest, r);
  }

  lemma StripEnds(s: string, a: nat, rest: string, r: string)
    requires a == LeadingSpace(s) && rest == s[a..]
    requires r == rest[..|rest| - TrailingSpace(rest)]
    ensures IsStripped(r)
  {
    var b := TrailingSpace(rest);
    assert |r| > 0 ==> r[0] == s[a] && r[|r| - 1] == rest[|rest| - b - 1];
  }

  lemma StripOccurs(s: string, a: nat, rest: string, r: string)
    requires a == LeadingSpace(s) && rest == s[a..]
    requires r == rest[..|rest| - TrailingSpace(rest)]
    ensures OccursAt(r, s, a) && AllSpace(s[..a]) && AllSpace(s[a + |r|..])
  {
    assert s[a..a + |r|] == r;
    assert s[a + |r|..] == rest[|rest| - TrailingSpace(rest)..];
  }

  lemma StripEmpty(s: string, a: nat, rest: string, r: string)
    requires a == LeadingSpace(s) && rest == s[a..]
    requires r == rest[..|rest| - TrailingSpace(rest)]
    ensures r == "" <==> AllSpace(s)
  {
    assert AllSpace(s) ==> a == |s|;
    assert r == "" ==> AllSpace(rest) && s == s[..a] + rest;
  }

  /** Stripping removes exactly the padding: whitespace around an already
      stripped string is all that `Strip` takes away. */
  lemma {:induction false} StripPadded(front: string, t: string, back: string)
    requires AllSpace(front) && AllSpace(back) && IsStripped(t)
    ensures Strip(front + t + back) == t
  {
    var s := front + t + back;
    LeadingOfPadded(front, t + back);
    assert s == front + (t + back);
    var rest := s[LeadingSpace(s)..];
    if |t| == 0 {
      assert rest == [];
    } else {
      assert rest == t + back;
    }
    TrailingOfPadded(t, back);
    assert rest[..|rest| - TrailingSpace(rest)] == t;
  }

  lemma {:induction false} LeadingOfPadded(front: string, s: string)
    requires AllSpace(front)
    requires |s| > 0 ==> !IsSpace(s[0]) || AllSpace(s)
    ensures LeadingSpace(front + s) == if AllSpace(s) then |front| + |s| else |front|
    decreases |front|
  {
    if |front| == 0 {
      assert front + s == s;
      if |s| > 0 && AllSpace(s) {
        assert s[1..] == s[1..] + [];
        AllSpaceLeading(s);
      }
    } else {
      assert (front + s)[1..] == front[1..] + s;
      LeadingOfPadded(front[1..], s);
    }
  }

  lemma {:induction false} AllSpaceLeading(s: string)
    requires AllSpace(s)
    ensures LeadingSpace(s) == |s|
    decreases |s|
  {
    if |s| > 0 {
      AllSpaceLeading(s[1..]);
    }
  }

  lemma {:induction false} TrailingOfPadded(t: string, back: string)
    requires AllSpace(back) && IsStripped(t)
    ensures TrailingSpace(t + back) == |back|
    decreases |back|
  {
    if |back| == 0 {
      assert t + back == t;
    } else {
      assert (t + back)[..|t + back| - 1] == t + back[..|back| - 1];
      TrailingOfPadded(t, back[..|back| - 1]);
    }
  }

  // ---------------------------------------------------------------------
  // Splitting on a separator

  /** Python's `s.split(sep)` for a one-character separator: always at least
      one piece, `""` yields `[""]`, and adjacent separators yield empty
      pieces. */
  function Split(s: string, sep: char): (r: seq<string>)
    ensures |r| >= 1
    ensures forall k :: 0 <= k < |r| ==> sep !in r[k]
  {
    if |s| == 0 then [""]
    else
      var rest := Split(s[1..], sep);
      if s[0] == sep then [""] + rest
      else [[s[0]] + rest[0]] + rest[1..]
  }

  /** Python's `sep.join(pieces)`. */
  function Join(pieces: seq<string>, sep: char): string
  {
    if |pieces| == 0 then ""
    else if |pieces| == 1 then pieces[0]
    else pieces[0] + [sep] + Join(pieces[1..], sep)
  }

  /** Joining the pieces back with the separator restores the input. */
  lemma {:induction false} JoinSplit(s: string, sep: char)
    ensures Join(Split(s, sep), sep) == s
  {
    if |s| > 0 {
      var rest := Split(s[1..], sep);
      JoinSplit(s[1..], sep);
      if s[0] == sep {
        assert Split(s, sep) == [""] + rest;
        assert ([""] + rest)[1..] == rest;
        assert Join([""] + rest, sep) == "" + [sep] + Join(rest, sep);
        assert s == [s[0]] + s[1..];
      } else {
        var pieces := [[s[0]] + rest[0]] + rest[1..];
        assert pieces[1..] == rest[1..];
        if |rest| == 1 {
          assert Join(rest, sep) == rest[0];
        } else {
          assert Join(rest, sep) == rest[0] + [sep] + Join(rest[1..], sep);
        }
        assert s == [s[0]] + s[1..];
      }
    }
  }

  /** Splitting a join of separator-free pieces gives the pieces back. */
  lemma {:induction false} SplitJoin(pieces: seq<string>, sep: char)
    requires |pieces| >= 1
    requires forall k :: 0 <= k < |pieces| ==> sep !in pieces[k]
    ensures Split(Join(pieces, sep), sep) == pieces
    decreases |pieces|, |pieces[0]|
  {
    var p := pieces[0];
    if |pieces| == 1 {
      SplitNoSep(p, sep);
    } else if |p| == 0 {
      var tail := Join(pieces[1..], sep);
      SplitJoin(pieces[1..], sep);
      assert Join(pieces, sep) == [sep] + tail;
      assert ([sep] + tail)[1..] == tail;
      assert pieces == [""] + pieces[1..];
    } else {
      var shorter := [p[1..]] + pieces[1..];
      assert shorter[1..] == pieces[1..];
      assert forall k :: 0 <= k < |shorter| ==> sep !in shorter[k] by {
        forall k | 0 <= k < |shorter| ensures sep !in shorter[k] {
          if k == 0 {
            assert forall c :: c in p[1..] ==> c in p;
          } else {
            assert shorter[k] == pieces[k];
          }
        }
      }
      SplitJoin(shorter, sep);
      var j := Join(pieces, sep);
      assert j == p + [sep] + Join(pieces[1..], sep);
      assert Join(shorter, sep) == p[1..] + [sep] + Join(pieces[1..], sep);
      assert j[1..] == Join(shorter, sep);
      assert j[0] == p[0] && p[0] != sep;
      assert [p[0]] + p[1..] == p;
    }
  }

  lemma {:induction false} SplitNoSep(s: string, sep: char)
    requires sep !in s
    ensures Split(s, sep) == [s]
    decreases |s|
  {
    if |s| > 0 {
      assert sep !in s[1..] by {
        assert forall c :: c in s[1..] ==> c in s;
      }
      SplitNoSep(s[1..], sep);
      assert [s[0]] + s[1..] == s;
    }
  }
}
