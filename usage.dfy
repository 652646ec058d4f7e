/** Command-line validation (fetch_participants.py, line 29): the script is
    run as `fetch_participants.py <meeting|webinar> <meeting id>`; any other
    invocation raises a usage error before any request or file is made. */
module Usage {
  import opened Records

  /** What a valid invocation selects. */
  datatype Invocation = Invocation(meetingType: string, meetingId: string)

  const UsageMessage: string := "Usage: python fetch_participants.py [meeting|webinar] [meeting ID]."

  predicate IsMeetingType(t: string) {
    t == "meeting" || t == "webinar"
  }

  /** `argv` includes the program name at index 0, as `sys.argv` does. */
  function ParseArgs(argv: seq<string>): (r: Result<Invocation, string>)
    ensures r.Ok? <==> |argv| == 3 && IsMeetingType(argv[1])
    ensures r.Ok? ==> r.value == Invocation(argv[1], argv[2])
    ensures r.Err? ==> r.error == UsageMessage
  {
    if |argv| != 3 || argv[1] !in {"meeting", "webinar"} then Err(UsageMessage)
    else Ok(Invocation(argv[1], argv[2]))
  }

  /** The command line of an invocation, under any program name. */
  function CommandLine(program: string, inv: Invocation): seq<string> {
    [program, inv.meetingType, inv.meetingId]
  }

  /** Parsing accepts exactly the command lines of invocations with a valid
      meeting type, and gives back the invocation they were built from. */
  lemma ParseArgsRoundTrip(program: string, inv: Invocation)
    ensures ParseArgs(CommandLine(program, inv)).Ok? <==> IsMeetingType(inv.meetingType)
    ensures IsMeetingType(inv.meetingType) ==> ParseArgs(CommandLine(program, inv)) == Ok(inv)
  {
  }

  /** Every accepted argument list is the command line of what it parsed to. */
  lemma ParseArgsOnlyCommandLines(argv: seq<string>)
    requires ParseArgs(argv).Ok?
    ensures argv == CommandLine(argv[0], ParseArgs(argv).value)
    ensures IsMeetingType(ParseArgs(argv).value.meetingType)
  {
  }

  /** An unknown meeting type and a missing meeting id are both usage errors. */
  lemma ParseArgsRejects()
    ensures ParseArgs(["fetch_participants.py", "webcast", "123"]) == Err(UsageMessage)
    ensures ParseArgs(["fetch_participants.py", "meeting"]) == Err(UsageMessage)
    ensures ParseArgs(["fetch_participants.py", "webinar", "123", "extra"]) == Err(UsageMessage)
  {
  }
}
