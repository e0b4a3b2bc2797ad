/**
 * The download endpoint of FileController: the outbound file name taken after
 * the last dash of the stored name, the Content-Disposition header built from
 * its URL-encoded form, and a Content-Length equal to the payload's size.
 */
module Controller {
  import opened Wrappers
  import opened Entities
  import Strings
  import Files

  /**
   * `filename.substring(filename.lastIndexOf("-") + 1)`: the longest dash-free
   * tail of the stored name, which is the whole name when it has no dash.
   */
  function OutboundName(storedName: string): (r: string)
    ensures '-' !in r
    ensures |r| <= |storedName| && storedName[|storedName| - |r|..] == r
    ensures '-' !in storedName ==> r == storedName
    ensures '-' in storedName ==> storedName[|storedName| - |r| - 1] == '-'
  {
    var i := Strings.LastIndexOf(storedName, '-');
    storedName[i + 1..]
  }

  /** A dash-free tail preceded by a dash is exactly what OutboundName returns. */
  lemma OutboundNameAfterDash(storedName: string, k: nat)
    requires k < |storedName| && storedName[k] == '-' && '-' !in storedName[k + 1..]
    ensures OutboundName(storedName) == storedName[k + 1..]
  {
    Strings.LastIndexOfAt(storedName, '-', k);
  }

  /**
   * For a stored name built at save time, the outbound name is the original
   * name exactly when that name has no dash; otherwise only its last
   * dash-separated segment survives.
   */
  lemma {:induction false} OutboundNameOfStoredName(millis: nat, originalFilename: string)
    ensures '-' !in originalFilename ==> OutboundName(Files.StoredName(millis, originalFilename)) == originalFilename
    ensures '-' in originalFilename ==>
      OutboundName(Files.StoredName(millis, originalFilename)) == OutboundName(originalFilename)
    ensures OutboundName(Files.StoredName(millis, originalFilename)) == originalFilename <==> '-' !in originalFilename
  {
    var name := Files.StoredName(millis, originalFilename);
    var p := |Strings.DecimalString(millis)|;
    assert name[p + 1..] == originalFilename;
    if '-' !in originalFilename {
      OutboundNameAfterDash(name, p);
    } else {
      var k := Strings.LastIndexOf(originalFilename, '-');
      assert name[p + 1 + k] == '-';
      assert name[p + 1 + k + 1..] == originalFilename[k + 1..];
      OutboundNameAfterDash(name, p + 1 + k);
    }
  }

  /** The example of a name with no dash in it: "1700000000000-report.pdf" is offered as "report.pdf". */
  lemma ReportExample()
    ensures OutboundName(Files.StoredName(1700000000000, "report.pdf")) == "report.pdf"
  {
    var orig := "report.pdf";
    assert '-' !in orig by {
      forall i | 0 <= i < |orig| ensures orig[i] != '-' { }
    }
    OutboundNameOfStoredName(1700000000000, orig);
  }

  /** A dash inside the original name cuts it: "my-report.pdf" is offered as "report.pdf". */
  lemma DashedNameExample(millis: nat)
    ensures OutboundName(Files.StoredName(millis, "my-report.pdf")) == "report.pdf"
  {
    var orig, tail := "my-report.pdf", "report.pdf";
    assert orig[2] == '-' && orig[3..] == tail;
    assert '-' !in tail by {
      forall i | 0 <= i < |tail| ensures tail[i] != '-' { }
    }
    OutboundNameAfterDash(orig, 2);
    OutboundNameOfStoredName(millis, orig);
  }

  const DispositionPrefix: string := "attachment; filename=\""

  /**
   * The Content-Disposition value: the encoded name inside
   * `attachment; filename="..."`, from which it reads back unchanged.
   */
  function ContentDisposition(encodedName: string): (r: string)
    ensures DispositionFilename(r) == Some(encodedName)
  {
    var header := DispositionPrefix + encodedName + "\"";
    var n := |DispositionPrefix|;
    assert header[..n] == DispositionPrefix;
    assert header[n..|header| - 1] == encodedName;
    header
  }

  /** Reads the quoted file name back out of a header of the form `attachment; filename="..."`. */
  function DispositionFilename(header: string): (r: Option<string>)
    ensures r.Some? ==> header == DispositionPrefix + r.value + "\""
  {
    var n := |DispositionPrefix|;
    if |header| >= n + 1 && header[..n] == DispositionPrefix && header[|header| - 1] == '"' then
      assert header == header[..n] + header[n..|header| - 1] + [header[|header| - 1]];
      Some(header[n..|header| - 1])
    else None
  }

  /** `URLEncoder.encode(name, "UTF-8")`: None stands for UnsupportedEncodingException. */
  type Encoder = string -> Option<string>

  /** The parts of the response the endpoint shapes; the content type is always octet-stream. */
  datatype Response = Response(contentDisposition: string, contentLength: nat, body: seq<Byte>)

  /**
   * Turns the service's (stored name, bytes) pair into the response: the
   * header carries the encoded outbound name, Content-Length is the payload's
   * length, and an encoding failure becomes a RuntimeException.
   */
  function ShapeDownload(data: DownloadFileData, encode: Encoder): (r: Result<Response, Error>)
    ensures encode(OutboundName(data.filename)).None? <==> r.Err?
    ensures r.Err? ==> r.error == Runtime(UnsupportedEncoding)
    ensures r.Ok? ==>
      && r.value.body == data.resource
      && r.value.contentLength == |r.value.body|
      && DispositionFilename(r.value.contentDisposition) == encode(OutboundName(data.filename))
  {
    var filename := data.filename;
    match encode(OutboundName(filename))
    case None => Err(Runtime(UnsupportedEncoding))
    case Some(encodedFileName) =>
      Ok(Response(ContentDisposition(encodedFileName), |data.resource|, data.resource))
  }

  class FileController {
    const fileService: Files.FileService

    constructor (fileService: Files.FileService)
      ensures this.fileService == fileService
    {
      this.fileService := fileService;
    }

    /**
     * `GET /file/download?id=...`: the service's download, then the response
     * shaping. Service errors pass through unchanged.
     */
    method DownloadFile(id: int, encode: Encoder) returns (r: Result<Response, Error>)
      requires fileService.Valid()
      ensures id !in fileService.fileRepository.records ==> r == Err(IllegalArgument(RecordNotFound))
      ensures id in fileService.fileRepository.records ==>
        var filename := fileService.fileRepository.records[id].filename;
        var loc := fileService.DownloadLocation(filename);
        var objects := fileService.s3Service.client.objects;
        && (loc !in objects ==> r == Err(NoSuchKey(loc.key)))
        && (loc in objects ==>
              r == ShapeDownload(DownloadFileData(filename, objects[loc].data), encode) ||
              r == Err(IllegalArgument(IOFailure)))
    {
      var fileData := fileService.DownloadFile(id);
      if fileData.Err? {
        return Err(fileData.error);
      }
      r := ShapeDownload(fileData.value, encode);
    }
  }
}
