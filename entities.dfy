/**
 * The plain records of the application: the persisted FileEntity, the submitted
 * SaveFileForm with its multipart upload, the DownloadFileData pair handed from
 * the service to the controller, and the exceptions the core can raise.
 */
module Entities {
  import opened Wrappers

  type Byte = bv8

  /** A row of the `files` table. `id` is None until the repository assigns one. */
  datatype FileEntity = FileEntity(
    id: Option<int>,
    title: string,
    description: string,
    folder: string,
    filename: string)

  /**
   * An uploaded multipart part. `readable` is false when reading its bytes
   * (`getBytes`) raises an IOException, e.g. because the temporary file is gone.
   */
  datatype MultipartFile = MultipartFile(originalFilename: string, bytes: seq<Byte>, readable: bool) {

    /** `getSize`: the number of bytes of the part. */
    function Size(): nat { |bytes| }

    /** `getBytes`: the content, or the IOException it raises. */
    function GetBytes(): (r: Result<seq<Byte>, ()>)
      ensures r.Ok? <==> readable
      ensures r.Ok? ==> r.value == bytes && |r.value| == Size()
    {
      if readable then Ok(bytes) else Err(())
    }
  }

  /** The bound form fields of `POST /file/save`. */
  datatype SaveFileForm = SaveFileForm(title: string, description: string, upfile: MultipartFile)

  /** The stored name of a record paired with the bytes downloaded for it. */
  datatype DownloadFileData = DownloadFileData(filename: string, resource: seq<Byte>)

  /** Why an IllegalArgumentException or RuntimeException was raised. */
  datatype Reason = RecordNotFound | IOFailure | UnsupportedEncoding

  /** The exceptions that leave the core. */
  datatype Error =
    | IllegalArgument(reason: Reason)  // IllegalArgumentException
    | NoSuchKey(key: string)           // the object store's NoSuchKeyException, not caught by the core
    | Runtime(reason: Reason)          // RuntimeException
}
