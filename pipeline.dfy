/** The whole script (fetch_participants.py, lines 29-106): validate the
    command line, fetch every page into the raw file, read the pages back
    into the participant dictionary and write the report. The API's answers
    are the parameter `pages`; files and the console are the returned line
    sequences. */
module Pipeline {
  import opened Records
  import opened Usage
  import opened Endpoint
  import opened Pagination
  import opened Extraction
  import opened Report

  /** What one successful run produces: the paths requested, the raw-output
      file (one page per line), the TSV file's lines and the console lines. */
  datatype Output = Output(requests: seq<string>, rawPages: seq<Page>, tsv: seq<string>, console: seq<string>)

  method Run(argv: seq<string>, pages: seq<Page>) returns (r: Result<Output, string>)
    requires ParseArgs(argv).Ok? ==> HasFinalPage(pages)
    ensures r.Err? <==> !(|argv| == 3 && IsMeetingType(argv[1]))
    ensures r.Err? ==> r.error == UsageMessage
    ensures r.Ok? ==>
              var last := FinalPage(pages);
              r.value.rawPages == pages[..last + 1] &&
              |r.value.requests| == last + 1 &&
              forall i :: 0 <= i <= last ==>
                r.value.requests[i] == EndpointPath(argv[1], argv[2], TokenSent(pages, i))
    ensures r.Ok? ==>
              var d := Extracted(Entries(r.value.rawPages));
              |r.value.tsv| == |d.keys| && |r.value.console| == |d.keys| &&
              forall i :: 0 <= i < |d.keys| ==>
                r.value.tsv[i] == TsvLine(d.names[d.keys[i]], d.keys[i]) &&
                r.value.console[i] == ConsoleLine(d.names[d.keys[i]], d.keys[i])
  {
    var parsed := ParseArgs(argv);
    if parsed.Err? {
      return Err(parsed.error);
    }
    var meetingType, meetingId := parsed.value.meetingType, parsed.value.meetingId;
    var fetched, requests := FetchAll(meetingType, meetingId, pages);
    var participants := ExtractParticipants(fetched);
    var tsv, console := WriteReport(participants.keys, participants.names);
    r := Ok(Output(requests, fetched, tsv, console));
  }
}
