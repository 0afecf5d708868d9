/**
  What the three tools share: the response envelope they return, the
  lookup of a shared drive by name (written out once here; the tools each
  carry a copy of it), the implicit parent folder a resolved drive gives,
  and the location line of a success message.

  A string argument that the tools only test for truthiness (`driveName`,
  `parentId`, `fileName`) is modelled as a `string` whose empty value stands
  for both "absent" and "", which JavaScript treats alike.
 */
module SharedDrive {
  import opened Strings
  import QueryEscape

  /** One item of an envelope's content; the constructor is its `type: "text"`. */
  datatype Content = Text(text: string)

  /** The envelope `{ content: [...], isError }` every tool returns. */
  datatype Response = Response(content: seq<Content>, isError: bool)

  /** An envelope with a single text item, the only shape the tools build. */
  function Reply(text: string, isError: bool): (r: Response)
    ensures |r.content| == 1 && r.content[0].text == text && r.isError == isError
  {
    Response([Text(text)], isError)
  }

  /** A shared drive as `drives.list` describes it. */
  datatype RemoteDrive = RemoteDrive(id: string, name: string)

  /** Parameters of the `drives.list` call. */
  datatype DrivesListRequest = DrivesListRequest(pageSize: int, q: string)

  /** What `drives.list` gave back: its `drives` array (absent = empty), or the message of what it threw. */
  datatype DrivesListResult = DriveList(drives: seq<RemoteDrive>) | LookupThrew(message: string)

  /** The lookup call for a drive name: an exact-name query, at most 100 drives. */
  function DriveLookup(driveName: string): (req: DrivesListRequest)
    ensures req.pageSize == 100
    ensures req.q == "name = '" + QueryEscape.BackslashBefore(driveName, '\'') + "'"
  {
    DrivesListRequest(100, "name = '" + QueryEscape.BackslashBefore(driveName, '\'') + "'")
  }

  /**
    What `files.create` gave back (`webViewLink` is "" when the service sent
    none or it was not asked for), or the message of what it threw.
   */
  datatype CreateResult = Created(id: string, name: string, webViewLink: string) | CreateThrew(message: string)

  /** Where a tool stands after the drive lookup. */
  datatype Resolution =
    | Unscoped                   // no drive name was given
    | Scoped(driveId: string)    // the first matching drive's id
    | Failed(response: Response) // the envelope the tool returns at once

  /** The drive id a resolution leaves the tool with; "" stands for none. */
  function ScopeId(r: Resolution): string {
    if r.Scoped? then r.driveId else ""
  }

  function Quoted(driveName: string): string {
    "\"" + driveName + "\""
  }

  function NotFoundText(driveName: string): string {
    "Shared drive " + Quoted(driveName) + " not found. Please check the drive name and ensure you have access to it."
  }

  function LookupErrorText(driveName: string, message: string): string {
    "Error finding shared drive " + Quoted(driveName) + ": " + message
  }

  /** Both failure texts quote the drive name; the lookup error also carries the thrown message. */
  lemma FailureTextsQuote(driveName: string, message: string)
    ensures Contains(NotFoundText(driveName), Quoted(driveName))
    ensures Contains(LookupErrorText(driveName, message), Quoted(driveName))
    ensures Contains(LookupErrorText(driveName, message), message)
  {
    var q := Quoted(driveName);
    ContainsInfix("Shared drive ", q, " not found. Please check the drive name and ensure you have access to it.");
    var pre := "Error finding shared drive ";
    ContainsInfix(pre, q, ": " + message);
    assert LookupErrorText(driveName, message) == pre + q + (": " + message);
    ContainsInfix(pre + q + ": ", message, "");
    assert LookupErrorText(driveName, message) + "" == LookupErrorText(driveName, message);
  }

  /**
    The shared-drive resolution of every tool: no name means no lookup; an
    empty drive list and a thrown lookup both end the call with an error
    envelope that quotes the name; otherwise the first drive wins.
   */
  function ResolveDrive(driveName: string, result: DrivesListResult): (r: Resolution)
    ensures r.Unscoped? <==> driveName == ""
    ensures r.Scoped? <==> driveName != "" && result.DriveList? && |result.drives| > 0
    ensures r.Scoped? ==> r.driveId == result.drives[0].id
    ensures r.Failed? ==> r.response.isError && |r.response.content| == 1
    ensures r.Failed? ==> Contains(r.response.content[0].text, Quoted(driveName))
    ensures r.Failed? && result.LookupThrew? ==> Contains(r.response.content[0].text, result.message)
  {
    if driveName == "" then Unscoped
    else match result
      case DriveList(drives) =>
        if |drives| > 0 then Scoped(drives[0].id)
        else
          FailureTextsQuote(driveName, "");
          Failed(Reply(NotFoundText(driveName), true))
      case LookupThrew(message) =>
        FailureTextsQuote(driveName, message);
        Failed(Reply(LookupErrorText(driveName, message), true))
  }

  /**
    The parent folder after resolution: an explicit `parentId` is kept,
    otherwise a resolved drive's id becomes the parent ("" when neither).
   */
  function EffectiveParent(parentId: string, driveId: string): (p: string)
    ensures parentId != "" ==> p == parentId
    ensures parentId == "" ==> p == driveId
    ensures p == "" <==> parentId == "" && driveId == ""
  {
    if parentId == "" then driveId else parentId
  }

  /** The last line of a success message: shared drive, else parent folder, else root. */
  function LocationLine(driveId: string, driveName: string, parentId: string): string {
    if driveId != "" then "In shared drive: " + driveName
    else if parentId != "" then "In parent folder: " + parentId
    else "In root"
  }

  /**
    What the location line says once the parent has been defaulted: the
    drive whenever one resolved, even over an explicit parent; otherwise the
    explicit parent; otherwise the root.
   */
  lemma LocationAfterDefaulting(parentArg: string, driveId: string, driveName: string)
    ensures driveId != "" ==> LocationLine(driveId, driveName, EffectiveParent(parentArg, driveId)) == "In shared drive: " + driveName
    ensures driveId == "" && parentArg != "" ==> LocationLine(driveId, driveName, EffectiveParent(parentArg, driveId)) == "In parent folder: " + parentArg
    ensures LocationLine(driveId, driveName, EffectiveParent(parentArg, driveId)) == "In root" <==> driveId == "" && parentArg == ""
  {
  }
}
