/** The coverage map a document surrogate keeps: tracked source sections,
    compared by value, each mapped to the coverage payloads recorded for it;
    and the two relocation passes that move sections after an edit changes
    the number of lines. Everything here is a function of map values; the
    surrogate class applies these functions to its table in place. */
module Coverage {
  import opened Protocol

  /** `MutableSourceSection` / `SourceLocation`: a tracked region, a map key
      compared structurally. Lines and columns are Java `int`s. */
  datatype Section = Section(startLine: int, startColumn: int, endLine: int, endColumn: int)

  /** `CoverageData`: the URI of the run that recorded it, plus analysis
      data the document model never inspects. */
  datatype CoverageData = CoverageData(coverageUri: Uri, detail: int)

  type CoverageMap = map<Section, seq<CoverageData>>

  predicate Distinct(locs: seq<Section>)
  {
    forall i, j :: 0 <= i < j < |locs| ==> locs[i] != locs[j]
  }

  // ---------------------------------------------------------------------
  // Adding, re-keying and querying

  /** `addLocationCoverage`: append `data` to the section's list, creating
      the list when the section is not tracked yet. */
  function AddedCoverage(m: CoverageMap, section: Section, data: CoverageData): (r: CoverageMap)
    ensures r.Keys == m.Keys + {section}
    ensures |r[section]| > 0 && r[section][|r[section]| - 1] == data
    ensures section in m ==> r[section][..|r[section]| - 1] == m[section]
    ensures section !in m ==> r[section] == [data]
    ensures forall k :: k in m && k != section ==> r[k] == m[k]
  {
    var prior := if section in m then m[section] else [];
    assert (prior + [data])[..|prior|] == prior;
    m[section := prior + [data]]
  }

  /** `replace`: the payload list of `from` moves to `to`; `from` is gone
      unless it is `to`; every other key keeps its list. */
  function ReplaceKey(m: CoverageMap, from: Section, to: Section): (r: CoverageMap)
    requires from in m
    ensures to in r && r[to] == m[from]
    ensures from != to ==> from !in r
    ensures r.Keys == m.Keys - {from} + {to}
    ensures forall k :: k in m && k != from && k != to ==> r[k] == m[k]
  {
    (m - {from})[to := m[from]]
  }

  /** The run URIs of a payload list (`getCoverageUris`). */
  function RunsOf(l: seq<CoverageData>): (r: set<Uri>)
    ensures forall d :: d in l ==> d.coverageUri in r
    ensures forall u :: u in r ==> exists d :: d in l && d.coverageUri == u
  {
    set d | d in l :: d.coverageUri
  }

  // ---------------------------------------------------------------------
  // Clearing the payloads of one run

  /** The payloads of `l` not recorded by `run`, in their original order. */
  function WithoutRun(l: seq<CoverageData>, run: Uri): (r: seq<CoverageData>)
    ensures |r| <= |l|
    ensures forall d :: d in r <==> d in l && d.coverageUri != run
  {
    if l == [] then []
    else
      var last := l[|l| - 1];
      assert l == l[..|l| - 1] + [last];
      WithoutRun(l[..|l| - 1], run) + (if last.coverageUri == run then [] else [last])
  }

  /** Filtering distributes over concatenation, so the kept payloads stay in
      their original order. */
  lemma {:induction false} WithoutRunAppend(a: seq<CoverageData>, b: seq<CoverageData>, run: Uri)
    ensures WithoutRun(a + b, run) == WithoutRun(a, run) + WithoutRun(b, run)
    decreases |b|
  {
    if b == [] {
      assert a + b == a;
    } else {
      var last := b[|b| - 1];
      assert (a + b)[..|a + b| - 1] == a + b[..|b| - 1];
      WithoutRunAppend(a, b[..|b| - 1], run);
    }
  }

  /** A list with no payload of `run` is left as it is. */
  lemma {:induction false} WithoutRunNoop(l: seq<CoverageData>, run: Uri)
    requires forall d :: d in l ==> d.coverageUri != run
    ensures WithoutRun(l, run) == l
  {
    if l != [] {
      assert l == l[..|l| - 1] + [l[|l| - 1]];
      WithoutRunNoop(l[..|l| - 1], run);
    }
  }

  /** `clearCoverage(uri)`: every list loses the payloads of `run`, and a
      section whose list becomes empty is no longer tracked. */
  function ClearedByRun(m: CoverageMap, run: Uri): (r: CoverageMap)
    ensures forall k :: k in r <==> k in m && WithoutRun(m[k], run) != []
    ensures forall k :: k in r ==> r[k] == WithoutRun(m[k], run)
  {
    map k | k in m && WithoutRun(m[k], run) != [] :: WithoutRun(m[k], run)
  }

  /** The map halfway through clearing `run`: the sections in `pending` are
      still untouched, the others are already cleared. */
  ghost function PartlyCleared(m: CoverageMap, run: Uri, pending: set<Section>): CoverageMap
  {
    map k | k in m && (k in pending || WithoutRun(m[k], run) != []) ::
      if k in pending then m[k] else WithoutRun(m[k], run)
  }

  /** Clearing one more pending section advances the partial map by one
      step. */
  lemma PartlyClearedStep(m: CoverageMap, run: Uri, pending: set<Section>, k: Section)
    requires k in pending && pending <= m.Keys
    ensures var cur := PartlyCleared(m, run, pending);
            var kept := WithoutRun(m[k], run);
            k in cur && cur[k] == m[k] &&
            (if kept == [] then cur - {k} else cur[k := kept]) == PartlyCleared(m, run, pending - {k})
  {
  }

  /** With nothing pending the partial map is the cleared map. */
  lemma PartlyClearedDone(m: CoverageMap, run: Uri)
    ensures PartlyCleared(m, run, {}) == ClearedByRun(m, run)
  {
  }

  /** After clearing a run no payload of it remains, and every payload of
      another run is still recorded under its section. */
  lemma ClearedByRunExact(m: CoverageMap, run: Uri)
    ensures forall k, d :: k in ClearedByRun(m, run) && d in ClearedByRun(m, run)[k] ==> d.coverageUri != run
    ensures forall k, d :: k in m && d in m[k] && d.coverageUri != run ==>
              k in ClearedByRun(m, run) && d in ClearedByRun(m, run)[k]
  {
  }

  /** Clearing the same run twice changes nothing the second time. */
  lemma ClearedByRunIdempotent(m: CoverageMap, run: Uri)
    ensures ClearedByRun(ClearedByRun(m, run), run) == ClearedByRun(m, run)
  {
    var once := ClearedByRun(m, run);
    forall k | k in once
      ensures WithoutRun(once[k], run) == once[k]
    {
      WithoutRunNoop(once[k], run);
    }
  }

  // ---------------------------------------------------------------------
  // The key snapshot

  /** Lexicographic order on sections; it fixes the order in which the
      model enumerates the keys of the map. */
  predicate SectionLe(a: Section, b: Section)
  {
    || a.startLine < b.startLine
    || (a.startLine == b.startLine && a.startColumn < b.startColumn)
    || (a.startLine == b.startLine && a.startColumn == b.startColumn && a.endLine < b.endLine)
    || (a.startLine == b.startLine && a.startColumn == b.startColumn && a.endLine == b.endLine && a.endColumn <= b.endColumn)
  }

  predicate IsLeast(x: Section, s: set<Section>)
  {
    x in s && forall y :: y in s ==> SectionLe(x, y)
  }

  lemma SectionLeTransitive(a: Section, b: Section, c: Section)
    requires SectionLe(a, b) && SectionLe(b, c)
    ensures SectionLe(a, c)
  {
  }

  lemma {:induction false} LeastExists(s: set<Section>)
    requires s != {}
    ensures exists x :: IsLeast(x, s)
    decreases |s|
  {
    var y :| y in s;
    if s - {y} == {} {
      assert s == {y};
      assert IsLeast(y, s);
    } else {
      LeastExists(s - {y});
      var z :| IsLeast(z, s - {y});
      if SectionLe(y, z) {
        forall w | w in s ensures SectionLe(y, w) {
          if w != y {
            SectionLeTransitive(y, z, w);
          }
        }
        assert IsLeast(y, s);
      } else {
        assert IsLeast(z, s);
      }
    }
  }

  /** `new ArrayList<>(keySet())`: every key exactly once. The order of a
      `HashMap` is unspecified; the model takes ascending order. */
  function KeyOrder(s: set<Section>): (r: seq<Section>)
    ensures Distinct(r)
    ensures forall k :: k in r <==> k in s
    decreases |s|
  {
    if s == {} then []
    else
      LeastExists(s);
      var x :| IsLeast(x, s);
      [x] + KeyOrder(s - {x})
  }

  // ---------------------------------------------------------------------
  // Relocation after an edit

  /** A relocated section: `both` shifts start and end line (a section
      behind the edit), otherwise only the end line (a section that includes
      the edit). Columns never change. */
  function Shift(k: Section, delta: int, both: bool): (r: Section)
    ensures r.startColumn == k.startColumn && r.endColumn == k.endColumn
    ensures r.endLine == k.endLine + delta
    ensures r.startLine == if both then k.startLine + delta else k.startLine
  {
    if both then k.(startLine := k.startLine + delta, endLine := k.endLine + delta)
    else k.(endLine := k.endLine + delta)
  }

  /** The outcome of relocation: a failure stops it, and the map is left as
      far as the passes got. */
  datatype Relocated = Relocated(failure: Option<Failure>, sections: CoverageMap)

  /** One pass over the key snapshot: every snapshot section that `matches`
      the edited range is re-keyed to its shifted copy; a matching section
      that is no longer a key fails `replace`'s assertion. */
  function RelocatePass(m: CoverageMap, locs: seq<Section>, range: Range, delta: int,
                        matches: (Section, Range) -> bool, both: bool): (r: Relocated)
    ensures r.failure == None || r.failure == Some(AssertionViolated)
    decreases |locs|
  {
    if locs == [] then Relocated(None, m)
    else if !matches(locs[0], range) then RelocatePass(m, locs[1..], range, delta, matches, both)
    else if locs[0] !in m then Relocated(Some(AssertionViolated), m)
    else RelocatePass(ReplaceKey(m, locs[0], Shift(locs[0], delta, both)), locs[1..], range, delta, matches, both)
  }

  /** A pass over a snapshot in which no section matches changes nothing. */
  lemma {:induction false} PassWithoutMatches(m: CoverageMap, locs: seq<Section>, range: Range, delta: int,
                                              matches: (Section, Range) -> bool, both: bool)
    requires forall i :: 0 <= i < |locs| ==> !matches(locs[i], range)
    ensures RelocatePass(m, locs, range, delta, matches, both) == Relocated(None, m)
    decreases |locs|
  {
    if locs != [] {
      assert !matches(locs[0], range);
      PassWithoutMatches(m, locs[1..], range, delta, matches, both);
    }
  }

  /** The two passes of `updateCoverageData`, both over the same snapshot
      taken before either runs: first the sections that include the edit,
      then the sections behind it. Only `replace`'s assertion can stop
      them, and when no snapshot section matches either test the map is
      left as it is. */
  function Relocate(m: CoverageMap, locs: seq<Section>, range: Range, delta: int,
                    includes: (Section, Range) -> bool, behind: (Section, Range) -> bool): (r: Relocated)
    ensures r.failure == None || r.failure == Some(AssertionViolated)
    ensures (forall i :: 0 <= i < |locs| ==> !includes(locs[i], range) && !behind(locs[i], range))
            ==> r == Relocated(None, m)
  {
    var first := RelocatePass(m, locs, range, delta, includes, false);
    if first.failure.Some? then
      assert !forall i :: 0 <= i < |locs| ==> !includes(locs[i], range) by {
        if forall i :: 0 <= i < |locs| ==> !includes(locs[i], range) {
          PassWithoutMatches(m, locs, range, delta, includes, false);
        }
      }
      first
    else
      var r := RelocatePass(first.sections, locs, range, delta, behind, true);
      if forall i :: 0 <= i < |locs| ==> !includes(locs[i], range) && !behind(locs[i], range) then
        PassWithoutMatches(m, locs, range, delta, includes, false);
        PassWithoutMatches(m, locs, range, delta, behind, true);
        r
      else r
  }

  /** Where a section should end up: an including section grows at its end,
      a section behind the edit moves as a whole, any other stays. */
  function Image(k: Section, range: Range, delta: int,
                 includes: (Section, Range) -> bool, behind: (Section, Range) -> bool): Section
  {
    if includes(k, range) then Shift(k, delta, false)
    else if behind(k, range) then Shift(k, delta, true)
    else k
  }

  predicate Moves(k: Section, range: Range, includes: (Section, Range) -> bool, behind: (Section, Range) -> bool)
  {
    includes(k, range) || behind(k, range)
  }

  /** The shifted copies are new keys and no two moving sections land on the
      same key. */
  predicate FreshImages(m: CoverageMap, range: Range, delta: int,
                        includes: (Section, Range) -> bool, behind: (Section, Range) -> bool)
  {
    && (forall k :: k in m && includes(k, range) ==> Shift(k, delta, false) !in m)
    && (forall k :: k in m && behind(k, range) ==> Shift(k, delta, true) !in m)
    && (forall k1, k2 :: k1 in m && k2 in m && k1 != k2 && Moves(k1, range, includes, behind) && Moves(k2, range, includes, behind)
          ==> Image(k1, range, delta, includes, behind) != Image(k2, range, delta, includes, behind))
  }

  predicate NoDoubleMatch(m: CoverageMap, range: Range,
                          includes: (Section, Range) -> bool, behind: (Section, Range) -> bool)
  {
    forall k :: k in m ==> !(includes(k, range) && behind(k, range))
  }

  function Matched(locs: seq<Section>, range: Range, matches: (Section, Range) -> bool): set<Section>
  {
    set k | k in locs && matches(k, range)
  }

  function ShiftedSet(s: set<Section>, delta: int, both: bool): set<Section>
  {
    set k | k in s :: Shift(k, delta, both)
  }

  /** A pass whose targets are fresh and distinct moves exactly the matching
      sections, each with its own payload list, and leaves the rest alone. */
  lemma {:induction false} PassMoves(c: CoverageMap, locs: seq<Section>, range: Range, delta: int,
                                     matches: (Section, Range) -> bool, both: bool)
    requires Distinct(locs)
    requires forall k :: k in locs && matches(k, range) ==> k in c && Shift(k, delta, both) !in c
    requires forall k1, k2 :: k1 in locs && k2 in locs && k1 != k2 && matches(k1, range) && matches(k2, range)
               ==> Shift(k1, delta, both) != Shift(k2, delta, both)
    ensures RelocatePass(c, locs, range, delta, matches, both).failure == None
    ensures RelocatePass(c, locs, range, delta, matches, both).sections.Keys
              == (c.Keys - Matched(locs, range, matches)) + ShiftedSet(Matched(locs, range, matches), delta, both)
    ensures forall k :: k in c && k !in Matched(locs, range, matches) ==>
              RelocatePass(c, locs, range, delta, matches, both).sections[k] == c[k]
    ensures forall k :: k in Matched(locs, range, matches) ==>
              RelocatePass(c, locs, range, delta, matches, both).sections[Shift(k, delta, both)] == c[k]
    decreases |locs|
  {
    if locs == [] {
      assert Matched(locs, range, matches) == {};
      assert ShiftedSet({}, delta, both) == {};
    } else {
      var h, t := locs[0], locs[1..];
      assert forall k :: k in locs <==> k == h || k in t;
      assert h !in t by {
        forall i | 0 <= i < |t| ensures t[i] != h {
          assert t[i] == locs[i + 1];
        }
      }
      assert Distinct(t) by {
        forall i, j | 0 <= i < j < |t| ensures t[i] != t[j] {
          assert t[i] == locs[i + 1] && t[j] == locs[j + 1];
        }
      }
      var Mt := Matched(t, range, matches);
      if !matches(h, range) {
        assert Matched(locs, range, matches) == Mt;
        PassMoves(c, t, range, delta, matches, both);
      } else {
        var sh := Shift(h, delta, both);
        var c' := ReplaceKey(c, h, sh);
        assert Matched(locs, range, matches) == Mt + {h};
        assert ShiftedSet(Mt + {h}, delta, both) == ShiftedSet(Mt, delta, both) + {sh};
        forall k | k in t && matches(k, range)
          ensures k in c' && Shift(k, delta, both) !in c'
        {
          assert k != h;
          assert Shift(k, delta, both) != sh;
        }
        PassMoves(c', t, range, delta, matches, both);
        assert sh !in Mt;
      }
    }
  }

  /** A pass meets a matching section that is not a key, and nothing moved
      before it can have taken that key: the pass fails. */
  lemma {:induction false} PassAbortsOnMissing(c: CoverageMap, locs: seq<Section>, range: Range, delta: int,
                                               matches: (Section, Range) -> bool, both: bool, x: Section)
    requires x in locs && matches(x, range) && x !in c
    requires forall k :: k in locs && matches(k, range) ==> Shift(k, delta, both) != x
    ensures RelocatePass(c, locs, range, delta, matches, both).failure == Some(AssertionViolated)
    decreases |locs|
  {
    var h, t := locs[0], locs[1..];
    assert forall k :: k in locs <==> k == h || k in t;
    if h != x && matches(h, range) && h in c {
      PassAbortsOnMissing(ReplaceKey(c, h, Shift(h, delta, both)), t, range, delta, matches, both, x);
    } else if h != x && !matches(h, range) {
      PassAbortsOnMissing(c, t, range, delta, matches, both, x);
    }
  }

  /** With fresh, distinct targets and no section matching both tests, the
      two passes move every section to its image with its payload list
      intact: nothing is dropped, duplicated or left behind. This holds for
      every order of the snapshot. */
  lemma RelocateIdeal(m: CoverageMap, locs: seq<Section>, range: Range, delta: int,
                      includes: (Section, Range) -> bool, behind: (Section, Range) -> bool)
    requires Distinct(locs) && (forall k :: k in locs <==> k in m)
    requires FreshImages(m, range, delta, includes, behind)
    requires NoDoubleMatch(m, range, includes, behind)
    ensures Relocate(m, locs, range, delta, includes, behind).failure == None
    ensures Relocate(m, locs, range, delta, includes, behind).sections.Keys
              == set k | k in m :: Image(k, range, delta, includes, behind)
    ensures forall k :: k in m ==>
              Relocate(m, locs, range, delta, includes, behind).sections[Image(k, range, delta, includes, behind)] == m[k]
  {
    var M1 := Matched(locs, range, includes);
    var M2 := Matched(locs, range, behind);
    forall k1, k2 | k1 in locs && k2 in locs && k1 != k2 && includes(k1, range) && includes(k2, range)
      ensures Shift(k1, delta, false) != Shift(k2, delta, false)
    {
      assert Image(k1, range, delta, includes, behind) == Shift(k1, delta, false);
      assert Image(k2, range, delta, includes, behind) == Shift(k2, delta, false);
    }
    PassMoves(m, locs, range, delta, includes, false);
    var c1 := RelocatePass(m, locs, range, delta, includes, false).sections;
    var S1 := ShiftedSet(M1, delta, false);
    forall k | k in locs && behind(k, range)
      ensures k in c1 && Shift(k, delta, true) !in c1
    {
      assert k !in M1;
      var img := Shift(k, delta, true);
      assert img == Image(k, range, delta, includes, behind);
      forall j | j in M1 ensures Shift(j, delta, false) != img {
        assert Image(j, range, delta, includes, behind) == Shift(j, delta, false);
      }
    }
    forall k1, k2 | k1 in locs && k2 in locs && k1 != k2 && behind(k1, range) && behind(k2, range)
      ensures Shift(k1, delta, true) != Shift(k2, delta, true)
    {
      assert Image(k1, range, delta, includes, behind) == Shift(k1, delta, true);
      assert Image(k2, range, delta, includes, behind) == Shift(k2, delta, true);
    }
    PassMoves(c1, locs, range, delta, behind, true);
    var r := Relocate(m, locs, range, delta, includes, behind);
    assert r == RelocatePass(c1, locs, range, delta, behind, true);
    var S2 := ShiftedSet(M2, delta, true);
    var images := set k | k in m :: Image(k, range, delta, includes, behind);
    assert r.sections.Keys == (c1.Keys - M2) + S2;
    assert c1.Keys == (m.Keys - M1) + S1;
    forall y | y in images ensures y in r.sections.Keys {
      var k :| k in m && Image(k, range, delta, includes, behind) == y;
      if includes(k, range) {
        assert k in M1 && y in S1;
        assert y !in m;
      } else if behind(k, range) {
        assert k in M2 && y in S2;
      } else {
        assert k !in M1 && k !in M2;
      }
    }
    forall y | y in r.sections.Keys ensures y in images {
      if y in S2 {
        var k :| k in M2 && Shift(k, delta, true) == y;
        assert Image(k, range, delta, includes, behind) == y;
      } else if y in S1 {
        var k :| k in M1 && Shift(k, delta, false) == y;
        assert Image(k, range, delta, includes, behind) == y;
      } else {
        assert y in m && y !in M1 && y !in M2;
        assert Image(y, range, delta, includes, behind) == y;
      }
    }
    forall k | k in m
      ensures r.sections[Image(k, range, delta, includes, behind)] == m[k]
    {
      if includes(k, range) {
        assert k in M1;
        var y := Shift(k, delta, false);
        assert y in c1 && c1[y] == m[k];
        assert y !in M2;
      } else if behind(k, range) {
        assert k in M2 && k !in M1;
        assert c1[k] == m[k];
      } else {
        assert k !in M1 && k !in M2;
        assert c1[k] == m[k];
      }
    }
  }

  /** A section matching both tests is re-keyed by the first pass and then
      looked up again by the second, where `replace`'s assertion fails. */
  lemma DoubleMatchAborts(m: CoverageMap, locs: seq<Section>, range: Range, delta: int,
                          includes: (Section, Range) -> bool, behind: (Section, Range) -> bool, x: Section)
    requires Distinct(locs) && (forall k :: k in locs <==> k in m)
    requires FreshImages(m, range, delta, includes, behind)
    requires x in m && includes(x, range) && behind(x, range)
    ensures Relocate(m, locs, range, delta, includes, behind).failure == Some(AssertionViolated)
  {
    forall k1, k2 | k1 in locs && k2 in locs && k1 != k2 && includes(k1, range) && includes(k2, range)
      ensures Shift(k1, delta, false) != Shift(k2, delta, false)
    {
      assert Image(k1, range, delta, includes, behind) == Shift(k1, delta, false);
      assert Image(k2, range, delta, includes, behind) == Shift(k2, delta, false);
    }
    PassMoves(m, locs, range, delta, includes, false);
    var c1 := RelocatePass(m, locs, range, delta, includes, false).sections;
    var M1 := Matched(locs, range, includes);
    assert x in M1;
    assert x !in ShiftedSet(M1, delta, false);
    PassAbortsOnMissing(c1, locs, range, delta, behind, true, x);
  }
}
