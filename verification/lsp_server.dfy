/** The state `LSPServer` keeps between requests: the diagnostics collected
    per document until they are published, the table of open documents and
    their language ids, and the trace level set by the client. The client
    connection is modelled as the sequence of diagnostics notifications it
    has been sent. */
module Server {
  import opened Protocol

  /** A diagnostic; `message` is `None` where the Java object holds `null`. */
  datatype Diagnostic = Diagnostic(range: Range, severity: nat, message: Option<string>)

  /** `PublishDiagnosticsParams`: a document and its diagnostics. */
  datatype PublishDiagnosticsParams = PublishDiagnosticsParams(uri: Uri, diagnostics: seq<Diagnostic>)

  type DiagnosticsTable = map<Uri, PublishDiagnosticsParams>

  const NoMessage: string := "<No message>"
  const AnalyseCoverage: string := "analyse_coverage"
  const ShowCoverage: string := "show_coverage"

  /** Every entry is filed under its own URI and no stored diagnostic lacks a
      message. */
  predicate WellFormed(table: DiagnosticsTable)
  {
    forall u :: u in table ==>
      && table[u].uri == u
      && forall i :: 0 <= i < |table[u].diagnostics| ==> table[u].diagnostics[i].message.Some?
  }

  /** The diagnostic as it is stored: a missing message becomes
      "<No message>", anything else is kept. */
  function WithMessage(d: Diagnostic): (r: Diagnostic)
    ensures r.message.Some? && r.range == d.range && r.severity == d.severity
    ensures d.message.Some? <==> r == d
    ensures d.message.None? <==> r.message == Some(NoMessage) && r != d
  {
    if d.message.None? then d.(message := Some(NoMessage)) else d
  }

  /** The diagnostics of one `addDiagnostics` call as they are stored, in
      argument order. */
  function WithMessages(ds: seq<Diagnostic>): (r: seq<Diagnostic>)
    ensures |r| == |ds|
    ensures forall i :: 0 <= i < |ds| ==> r[i] == WithMessage(ds[i])
  {
    if ds == [] then [] else WithMessages(ds[..|ds| - 1]) + [WithMessage(ds[|ds| - 1])]
  }

  /** The diagnostics collected so far for `uri`. */
  function Collected(table: DiagnosticsTable, uri: Uri): seq<Diagnostic>
  {
    if uri in table then table[uri].diagnostics else []
  }

  /** The table after `addDiagnostics(uri, ds)`. */
  function AddedDiagnostics(table: DiagnosticsTable, uri: Uri, ds: seq<Diagnostic>): (r: DiagnosticsTable)
    ensures uri in r && r.Keys == table.Keys + {uri}
    ensures |r[uri].diagnostics| == |Collected(table, uri)| + |ds|
    ensures r[uri].diagnostics[..|Collected(table, uri)|] == Collected(table, uri)
    ensures r[uri].diagnostics[|Collected(table, uri)|..] == WithMessages(ds)
    ensures forall u :: u in table && u != uri ==> r[u] == table[u]
    ensures WellFormed(table) ==> WellFormed(r)
  {
    var collected := Collected(table, uri);
    var r := table[uri := PublishDiagnosticsParams(uri, collected + WithMessages(ds))];
    assert r[uri].diagnostics[..|collected|] == collected;
    assert r[uri].diagnostics[|collected|..] == WithMessages(ds);
    r
  }

  /** What flushing one document's diagnostics leaves and sends. */
  datatype Flushed = Flushed(remaining: DiagnosticsTable, sent: seq<PublishDiagnosticsParams>)

  /** `reportCollectedDiagnostics(uri, force)`: collected diagnostics are
      sent and dropped; without any, an empty list is sent only when
      forced. */
  function Flush(table: DiagnosticsTable, uri: Uri, force: bool): (r: Flushed)
    ensures uri !in r.remaining
    ensures forall u :: u != uri ==> (u in r.remaining <==> u in table) && (u in table ==> r.remaining[u] == table[u])
    ensures uri in table ==> r.sent == [table[uri]]
    ensures uri !in table && force ==> r.sent == [PublishDiagnosticsParams(uri, [])]
    ensures uri !in table && !force ==> r.sent == [] && r.remaining == table
    ensures WellFormed(table) ==> WellFormed(r.remaining)
  {
    if uri in table then Flushed(table - {uri}, [table[uri]])
    else if force then Flushed(table, [PublishDiagnosticsParams(uri, [])])
    else Flushed(table, [])
  }

  /** After collecting, the document's entry is the earlier diagnostics
      followed by the new ones, and the rest of the table is as before. */
  lemma AddedEntry(table: DiagnosticsTable, uri: Uri, ds: seq<Diagnostic>)
    ensures var added := AddedDiagnostics(table, uri, ds);
            && added[uri] == PublishDiagnosticsParams(uri, Collected(table, uri) + WithMessages(ds))
            && added - {uri} == table - {uri}
  {
    var added := AddedDiagnostics(table, uri, ds);
    var collected := Collected(table, uri);
    assert added[uri].diagnostics == added[uri].diagnostics[..|collected|] + added[uri].diagnostics[|collected|..];
  }

  /** Collecting and then flushing sends everything collected for the
      document, in order, whatever `force` is, and forgets the document;
      a second flush without `force` sends nothing. */
  lemma AddThenFlush(table: DiagnosticsTable, uri: Uri, ds: seq<Diagnostic>, force: bool)
    ensures var f := Flush(AddedDiagnostics(table, uri, ds), uri, force);
            && f.sent == [PublishDiagnosticsParams(uri, Collected(table, uri) + WithMessages(ds))]
            && f.remaining == table - {uri}
            && Flush(f.remaining, uri, false) == Flushed(f.remaining, [])
  {
    AddedEntry(table, uri, ds);
  }

  /** `settings` of `didChangeConfiguration`: a JSON-like value, of which
      only strings and objects matter. */
  datatype Setting = Text(s: string) | Table(entries: map<string, Setting>) | OtherValue

  /** The value a path of member names leads to through nested objects, if
      every step before the last is an object holding the next name. */
  function Lookup(settings: Setting, path: seq<string>): Option<Setting>
    decreases |path|
  {
    if path == [] then Some(settings)
    else if settings.Table? && path[0] in settings.entries then Lookup(settings.entries[path[0]], path[1..])
    else None
  }

  const TraceServerPath: seq<string> := ["truffleLsp", "trace", "server"]

  /** `settings.truffleLsp.trace.server`: present exactly when the path
      leads through objects to a string, and then that string. */
  function TraceServerSetting(settings: Setting): (r: Option<string>)
    ensures r.Some? <==> Lookup(settings, TraceServerPath).Some? && Lookup(settings, TraceServerPath).value.Text?
    ensures r.Some? ==> Lookup(settings, TraceServerPath) == Some(Text(r.value))
  {
    assert TraceServerPath[1..] == ["trace", "server"] && TraceServerPath[1..][1..] == ["server"];
    assert TraceServerPath[1..][1..][1..] == [];
    if settings.Table? && "truffleLsp" in settings.entries && settings.entries["truffleLsp"].Table? then
      var truffleLsp := settings.entries["truffleLsp"].entries;
      if "trace" in truffleLsp && truffleLsp["trace"].Table? then
        var trace := truffleLsp["trace"].entries;
        if "server" in trace && trace["server"].Text? then Some(trace["server"].s) else None
      else None
    else None
  }

  /** The trace level after a configuration change: the new string if the
      settings carry one, otherwise the current level. */
  function NextTraceServer(current: string, settings: Setting): (r: string)
    ensures r != current ==> TraceServerSetting(settings) == Some(r)
    ensures TraceServerSetting(settings).None? ==> r == current
    ensures TraceServerSetting(settings).Some? ==> r == TraceServerSetting(settings).value
  {
    match TraceServerSetting(settings)
    case Some(level) => level
    case None => current
  }

  /** A settings object that sets only the trace level. */
  function TraceSettings(level: string): Setting
  {
    Table(map["truffleLsp" := Table(map["trace" := Table(map["server" := Text(level)])])])
  }

  /** Setting the level through the nested objects takes effect, and a
      value that is not a string changes nothing. */
  lemma TraceLevelSetting(current: string, level: string, other: Setting)
    ensures NextTraceServer(current, TraceSettings(level)) == level
    ensures !other.Text? ==>
      NextTraceServer(current, Table(map["truffleLsp" := Table(map["trace" := Table(map["server" := other])])])) == current
  {
  }

  /** LSP4J's `Command` and `CodeLens`. */
  datatype Command = Command(title: string, command: string, arguments: seq<Uri>)
  datatype CodeLens = CodeLens(range: Range, command: Command)

  /** `codeLens`: the coverage commands offered at the top of every
      document. */
  function CodeLenses(uri: Uri): (r: seq<CodeLens>)
    ensures |r| == 2
    ensures r[0].command.command == AnalyseCoverage && r[1].command.command == ShowCoverage
    ensures forall i :: 0 <= i < |r| ==> r[i].range == DocumentStart && r[i].command.arguments == [uri]
  {
    [CodeLens(DocumentStart, Command("Analyse coverage", AnalyseCoverage, [uri])),
     CodeLens(DocumentStart, Command("Highlight uncovered code", ShowCoverage, [uri]))]
  }

  class LspServer {
    var openedFileUri2LangId: map<Uri, string>
    var traceServer: string
    var diagnostics: DiagnosticsTable
    /** The diagnostics notifications sent to the client, oldest first. */
    var published: seq<PublishDiagnosticsParams>

    ghost predicate Valid()
      reads this
    {
      WellFormed(diagnostics)
    }

    constructor ()
      ensures Valid()
      ensures openedFileUri2LangId == map[] && diagnostics == map[] && published == []
      ensures traceServer == "off"
    {
      openedFileUri2LangId := map[];
      traceServer := "off";
      diagnostics := map[];
      published := [];
    }

    /** `addDiagnostics`: creates the document's entry when it has none and
      appends the diagnostics one by one, giving a missing message the
      placeholder. */
    method AddDiagnostics(uri: Uri, ds: seq<Diagnostic>)
      requires Valid()
      modifies this`diagnostics
      ensures Valid()
      ensures diagnostics == AddedDiagnostics(old(diagnostics), uri, ds)
    {
      if uri !in diagnostics {
        diagnostics := diagnostics[uri := PublishDiagnosticsParams(uri, [])];
      }
      ghost var collected := Collected(old(diagnostics), uri);
      assert WithMessages(ds[..0]) == [] by {
        assert ds[..0] == [];
      }
      assert collected + [] == collected;
      for i := 0 to |ds|
        invariant Valid()
        invariant diagnostics == old(diagnostics)[uri := PublishDiagnosticsParams(uri, collected + WithMessages(ds[..i]))]
      {
        var diagnostic := ds[i];
        if diagnostic.message.None? {
          diagnostic := diagnostic.(message := Some(NoMessage));
        }
        var params := diagnostics[uri];
        diagnostics := diagnostics[uri := params.(diagnostics := params.diagnostics + [diagnostic])];
        assert WithMessages(ds[..i + 1]) == WithMessages(ds[..i]) + [diagnostic] by {
          assert ds[..i + 1][..i] == ds[..i];
          assert ds[..i + 1][i] == ds[i];
        }
        assert collected + WithMessages(ds[..i]) + [diagnostic] == collected + WithMessages(ds[..i + 1]);
      }
      assert ds[..|ds|] == ds;
    }

    /** `reportCollectedDiagnostics(URI, boolean)`. */
    method ReportCollectedDiagnostics(uri: Uri, forceIfNotExisting: bool)
      requires Valid()
      modifies this`diagnostics, this`published
      ensures Valid()
      ensures diagnostics == Flush(old(diagnostics), uri, forceIfNotExisting).remaining
      ensures published == old(published) + Flush(old(diagnostics), uri, forceIfNotExisting).sent
    {
      if uri in diagnostics {
        published := published + [diagnostics[uri]];
        diagnostics := diagnostics - {uri};
      } else if forceIfNotExisting {
        published := published + [PublishDiagnosticsParams(uri, [])];
      }
    }

    /** `didOpen`: records the document's language id (the parse it starts
      is the runtime's). */
    method DidOpen(uri: Uri, languageId: string)
      modifies this`openedFileUri2LangId
      ensures openedFileUri2LangId == old(openedFileUri2LangId)[uri := languageId]
    {
      openedFileUri2LangId := openedFileUri2LangId[uri := languageId];
    }

    /** `didClose`: forgets the document, which the source asserts was
      open. */
    method DidClose(uri: Uri)
      requires uri in openedFileUri2LangId
      modifies this`openedFileUri2LangId
      ensures openedFileUri2LangId == old(openedFileUri2LangId) - {uri}
    {
      openedFileUri2LangId := openedFileUri2LangId - {uri};
    }

    /** `processChanges` with incremental synchronisation: looks up the
      document's language id, which the source asserts exists, and hands
      the whole change list to the runtime unchanged. */
    method ProcessChanges(documentUri: Uri, list: seq<ChangeEvent>) returns (langId: string, forwarded: seq<ChangeEvent>)
      requires documentUri in openedFileUri2LangId
      ensures langId == openedFileUri2LangId[documentUri]
      ensures forwarded == list
    {
      langId := openedFileUri2LangId[documentUri];
      forwarded := list;
    }

    /** `didChangeConfiguration`. */
    method DidChangeConfiguration(settings: Setting)
      modifies this`traceServer
      ensures traceServer == NextTraceServer(old(traceServer), settings)
      ensures IsVerbose() <==> NextTraceServer(old(traceServer), settings) == "verbose"
    {
      traceServer := NextTraceServer(traceServer, settings);
    }

    /** `isVerbose`: the client asked for verbose tracing; the initial level
        "off" is not verbose. */
    function IsVerbose(): (verbose: bool)
      reads this
      ensures verbose <==> traceServer == "verbose"
      ensures traceServer == "off" ==> !verbose
    {
      traceServer == "verbose"
    }
  }

  /** Opening a document and closing it again leaves the table as it was
      when the document was not open before. */
  lemma OpenThenClose(table: map<Uri, string>, uri: Uri, languageId: string)
    requires uri !in table
    ensures table[uri := languageId] - {uri} == table
    ensures uri in table[uri := languageId] && table[uri := languageId][uri] == languageId
  {
  }
}
