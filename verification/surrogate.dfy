/** `TextDocumentSurrogate`: the server's per-document state. The coverage
    map and the backlog of edits since the last successful parse are objects
    of their own, because `copy()` shares them by reference; the editor text
    is memoised; the parse state lives in a `SourceWrapper`. */
module Surrogates {
  import opened Protocol
  import opened Coverage

  /** The runtime's handle for a parsed document, kept as an identity. */
  datatype CallTarget = CallTarget(id: nat)

  /** The parse state of a document. `SourceWrapper` is not part of this
      model; it is taken as the characters of the source that was built for
      parsing, a success flag and the call target, starting unparsed. */
  class SourceWrapper {
    const characters: string
    var parsingSuccessful: bool
    var callTarget: Option<CallTarget>

    constructor (characters: string)
      ensures this.characters == characters
      ensures !parsingSuccessful && callTarget == None
    {
      this.characters := characters;
      parsingSuccessful := false;
      callTarget := None;
    }
  }

  /** The `HashMap` from tracked sections to coverage payloads. */
  class CoverageTable {
    var sections: CoverageMap

    constructor ()
      ensures sections == map[]
    {
      sections := map[];
    }
  }

  /** The `ArrayList` of change events received since the last successful
      parse. */
  class ChangeBacklog {
    var events: seq<ChangeEvent>

    constructor ()
      ensures events == []
    {
      events := [];
    }

    /** `List.add`, as the callers that receive change notifications use it. */
    method Add(event: ChangeEvent)
      modifies this
      ensures events == old(events) + [event]
    {
      events := events + [event];
    }
  }

  /** Where a document stands with respect to parsing: never parsed (or the
      last parse failed), parsed with no edits since, or parsed and edited
      since. */
  datatype ParseStatus = Unparsed | Parsed | Dirty

  class TextDocumentSurrogate {
    const uri: Uri
    const languageId: string
    const completionTriggerCharacters: seq<string>
    const backlog: ChangeBacklog
    const coverage: CoverageTable
    var editorText: Option<string>
    var coverageAnalysisDone: bool
    var sourceWrapper: SourceWrapper?
    var lastChange: Option<ChangeEvent>

    constructor (uri: Uri, languageId: string, completionTriggerCharacters: seq<string>)
      ensures this.uri == uri && this.languageId == languageId
      ensures this.completionTriggerCharacters == completionTriggerCharacters
      ensures fresh(backlog) && fresh(coverage)
      ensures backlog.events == [] && coverage.sections == map[]
      ensures editorText == None && !coverageAnalysisDone && sourceWrapper == null && lastChange == None
    {
      this.uri := uri;
      this.languageId := languageId;
      this.completionTriggerCharacters := completionTriggerCharacters;
      backlog := new ChangeBacklog();
      coverage := new CoverageTable();
      editorText := None;
      coverageAnalysisDone := false;
      sourceWrapper := null;
      lastChange := None;
    }

    /** The private copy constructor: every field is taken over, the coverage
        table and the backlog by reference, except the coverage-analysis flag,
        which starts out false again. */
    constructor CopyOf(blueprint: TextDocumentSurrogate)
      ensures uri == blueprint.uri && languageId == blueprint.languageId
      ensures completionTriggerCharacters == blueprint.completionTriggerCharacters
      ensures coverage == blueprint.coverage && backlog == blueprint.backlog
      ensures editorText == blueprint.editorText && sourceWrapper == blueprint.sourceWrapper
      ensures lastChange == blueprint.lastChange && !coverageAnalysisDone
    {
      uri := blueprint.uri;
      languageId := blueprint.languageId;
      completionTriggerCharacters := blueprint.completionTriggerCharacters;
      coverage := blueprint.coverage;
      backlog := blueprint.backlog;
      editorText := blueprint.editorText;
      sourceWrapper := blueprint.sourceWrapper;
      lastChange := blueprint.lastChange;
      coverageAnalysisDone := false;
    }

    /** `copy()`: a new surrogate equal to this one that shares its coverage
        map and backlog, so an update through either is seen by both. */
    method Copy() returns (c: TextDocumentSurrogate)
      ensures fresh(c) && c != this && c.Equals(this) && this.Equals(c)
      ensures c.coverage == coverage && c.backlog == backlog
      ensures c.editorText == editorText && c.sourceWrapper == sourceWrapper && c.lastChange == lastChange
      ensures c.languageId == languageId && !c.coverageAnalysisDone
    {
      c := new TextDocumentSurrogate.CopyOf(this);
    }

    /** `equals`: a surrogate equals itself, and another one exactly when
        their URIs are equal; `null` equals none. */
    function Equals(obj: TextDocumentSurrogate?): (eq: bool)
      ensures obj == this ==> eq
      ensures eq <==> obj != null && obj.uri == uri
    {
      obj != null && uri == obj.uri
    }

    /** `hashCode`: depends on the URI alone, so equal surrogates hash alike
        (`EqualsConsistent`); `URI.hashCode` is not part of this model and is
        passed in. */
    function HashCode(uriHash: Uri -> int): (h: int)
      ensures h == uriHash(uri)
    {
      uriHash(uri)
    }

    // -------------------------------------------------------------------
    // Editor text

    /** `getEditorText`: the memoised text, or else the characters of the
        source built for this document (`built`), which become the memo. */
    method GetEditorText(built: string) returns (t: string)
      modifies this`editorText
      ensures editorText == Some(t)
      ensures old(editorText).Some? ==> t == old(editorText).value
      ensures old(editorText).None? ==> t == built
    {
      if editorText.None? {
        editorText := Some(built);
      }
      t := editorText.value;
    }

    /** `setEditorText`; `None` stands for `null` and drops the memo. */
    method SetEditorText(text: Option<string>)
      modifies this`editorText
      ensures editorText == text
    {
      editorText := text;
    }

    method SetCoverageAnalysisDone(done: bool)
      modifies this`coverageAnalysisDone
      ensures coverageAnalysisDone == done
    {
      coverageAnalysisDone := done;
    }

    method SetLastChange(change: Option<ChangeEvent>)
      modifies this`lastChange
      ensures lastChange == change
    {
      lastChange := change;
    }

    // -------------------------------------------------------------------
    // Coverage

    /** `getCoverageUris`: the runs that covered `section`, or `None` (null)
        when the section is not tracked. */
    function GetCoverageUris(section: Section): (r: Option<set<Uri>>)
      reads coverage
      ensures r.None? <==> section !in coverage.sections
      ensures r.Some? ==> forall d :: d in coverage.sections[section] ==> d.coverageUri in r.value
      ensures r.Some? ==> forall u :: u in r.value ==> exists d :: d in coverage.sections[section] && d.coverageUri == u
    {
      if section in coverage.sections then Some(RunsOf(coverage.sections[section])) else None
    }

    /** `isLocationCovered`: the section is tracked, which is when it has
        run URIs to report. */
    function IsLocationCovered(section: Section): (covered: bool)
      reads coverage
      ensures covered <==> GetCoverageUris(section).Some?
    {
      section in coverage.sections
    }

    /** `hasCoverageData`: the map is not empty, that is, some section is
        covered. */
    function HasCoverageData(): (has: bool)
      reads coverage
      ensures has <==> exists k :: IsLocationCovered(k)
    {
      if coverage.sections == map[] then false
      else
        var k :| k in coverage.sections;
        assert IsLocationCovered(k);
        true
    }

    /** `addLocationCoverage`. */
    method AddLocationCoverage(section: Section, data: CoverageData)
      modifies coverage
      ensures coverage.sections == AddedCoverage(old(coverage.sections), section, data)
      ensures IsLocationCovered(section) && HasCoverageData()
      ensures GetCoverageUris(section).Some? && data.coverageUri in GetCoverageUris(section).value
    {
      coverage.sections := AddedCoverage(coverage.sections, section, data);
    }

    /** `clearCoverage()`. */
    method ClearCoverage()
      modifies coverage
      ensures coverage.sections == map[] && !HasCoverageData()
    {
      coverage.sections := map[];
    }

    /** `clearCoverage(URI)`: walks every entry, removes the payloads of
        `run` from its list, and removes the entry once its list is empty. */
    method ClearCoverageOfRun(run: Uri)
      modifies coverage
      ensures coverage.sections == ClearedByRun(old(coverage.sections), run)
    {
      ghost var before := coverage.sections;
      var pending := coverage.sections.Keys;
      while pending != {}
        invariant pending <= before.Keys
        invariant coverage.sections == PartlyCleared(before, run, pending)
        decreases pending
      {
        var section :| section in pending;
        PartlyClearedStep(before, run, pending, section);
        var kept := RemoveRunPayloads(coverage.sections[section], run);
        if kept == [] {
          coverage.sections := coverage.sections - {section};
        } else {
          coverage.sections := coverage.sections[section := kept];
        }
        pending := pending - {section};
      }
      PartlyClearedDone(before, run);
    }

    /** The inner loop of `clearCoverage(URI)`: the payload list of one entry
        with the payloads of `run` removed, in their order. */
    static method RemoveRunPayloads(data: seq<CoverageData>, run: Uri) returns (kept: seq<CoverageData>)
      ensures kept == WithoutRun(data, run)
    {
      kept := [];
      for i := 0 to |data|
        invariant kept == WithoutRun(data[..i], run)
      {
        assert data[..i + 1][..i] == data[..i];
        if data[i].coverageUri != run {
          kept := kept + [data[i]];
        }
      }
      assert data[..|data|] == data;
    }

    /** `getCoverageLocations`: a snapshot of the tracked sections, each
        exactly once. */
    function GetCoverageLocations(): (r: seq<Section>)
      reads coverage
      ensures Distinct(r)
      ensures forall k :: k in r <==> k in coverage.sections
      ensures |r| == 0 <==> !HasCoverageData()
    {
      var r := KeyOrder(coverage.sections.Keys);
      assert r == [] ==> coverage.sections.Keys == {};
      r
    }

    /** `replace`: moves the payload list of `from` to `to`; the source
        asserts that `from` is tracked. */
    method Replace(from: Section, to: Section)
      requires from in coverage.sections
      modifies coverage
      ensures coverage.sections == ReplaceKey(old(coverage.sections), from, to)
      ensures IsLocationCovered(to) && (from != to ==> !IsLocationCovered(from))
    {
      coverage.sections := ReplaceKey(coverage.sections, from, to);
    }

    // -------------------------------------------------------------------
    // Parsing

    /** `prepareParsing`: a fresh, not yet parsed wrapper around the source
        built for this document, whose characters are `built`, the editor
        text when one is set. */
    method PrepareParsing(built: string) returns (w: SourceWrapper)
      requires editorText.Some? ==> built == editorText.value
      modifies this`sourceWrapper
      ensures fresh(w) && sourceWrapper == w && w.characters == built
      ensures Status() == Unparsed
    {
      w := new SourceWrapper(built);
      sourceWrapper := w;
    }

    /** `notifyParsingSuccessful`: marks the wrapper parsed with the given
        call target and empties the backlog. */
    method NotifyParsingSuccessful(callTarget: CallTarget)
      requires sourceWrapper != null
      modifies sourceWrapper, backlog
      ensures sourceWrapper.parsingSuccessful && sourceWrapper.callTarget == Some(callTarget)
      ensures backlog.events == []
      ensures Status() == Parsed
    {
      sourceWrapper.parsingSuccessful := true;
      sourceWrapper.callTarget := Some(callTarget);
      backlog.events := [];
    }

    /** `isSourceCodeReadyForCodeCompletion`: dereferences the wrapper, so
        it fails before the first `prepareParsing`; otherwise ready exactly
        when the document is parsed, with or without edits since. */
    function ReadyForCodeCompletion(): (r: Result<bool>)
      reads this, backlog, if sourceWrapper != null then {sourceWrapper} else {}
      ensures r.Err? <==> sourceWrapper == null
      ensures r.Err? ==> r.failure == NullDereference
      ensures r.Ok? ==> (r.value <==> Status() != Unparsed)
    {
      if sourceWrapper == null then Err(NullDereference) else Ok(sourceWrapper.parsingSuccessful)
    }

    /** The parse status, derived from the wrapper and the backlog. */
    function Status(): (s: ParseStatus)
      reads this, backlog, if sourceWrapper != null then {sourceWrapper} else {}
      ensures s == Parsed ==> sourceWrapper != null && sourceWrapper.parsingSuccessful && backlog.events == []
      ensures s == Dirty ==> sourceWrapper != null && sourceWrapper.parsingSuccessful && backlog.events != []
      ensures s == Unparsed <==> sourceWrapper == null || !sourceWrapper.parsingSuccessful
    {
      if sourceWrapper == null || !sourceWrapper.parsingSuccessful then Unparsed
      else if backlog.events == [] then Parsed
      else Dirty
    }
  }

  /** Equality of surrogates is an equivalence, and equal surrogates hash
      alike whatever the URI hash is. */
  lemma EqualsConsistent(a: TextDocumentSurrogate, b: TextDocumentSurrogate, c: TextDocumentSurrogate, uriHash: Uri -> int)
    ensures a.Equals(a)
    ensures a.Equals(b) <==> b.Equals(a)
    ensures a.Equals(b) && b.Equals(c) ==> a.Equals(c)
    ensures a.Equals(b) ==> a.HashCode(uriHash) == b.HashCode(uriHash)
  {
  }
}
