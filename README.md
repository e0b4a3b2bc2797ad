# spring-boot-s3 file upload/download core, modelled in Dafny

The application stores uploaded files in an S3 bucket and keeps a metadata row for each one in a
`files` table. This project models the part of it that has behaviour worth stating:

- **Naming.** `FileService.saveFile` names an upload `<epoch millis>-<original filename>`.
  `S3Service` turns `(folder, filename)` into the key `folder/filename`, in the same way for upload
  and download. `FileController.downloadFile` offers the part of the stored name after its last `-`
  as the download name.
- **The S3 adapter.** `S3Service.uploadFile` puts the part's bytes under that key and declares the
  part's size as Content-Length. `S3Service.downloadFile` reads the object through its input stream
  with a 1024-byte buffer, appending each chunk until `read` returns -1.
- **The orchestration.** `saveFile` uploads first and saves the record only after that.
  `downloadFile` looks the record up first and only then reads the store. `getAllFiles` and
  `getFile` are plain repository queries.

Modules, one per concern:

| module | file | models |
|---|---|---|
| `Wrappers` | wrappers.dfy | `Option` / `Result`, standing in for null, `Optional` and exceptions |
| `Entities` | entities.dfy | `FileEntity`, `SaveFileForm`, the multipart part, `DownloadFileData`, the exceptions |
| `Strings` | strings.dfy | `Long.toString` and `String.lastIndexOf`, plus `indexOf` and a decimal parser for the proved inverses |
| `S3` | s3.dfy | key convention, bucket store (`S3Client`), object stream, `S3Service` |
| `Repository` | repository.dfy | the JPA `FileRepository`: a map from id to row plus the next id |
| `Files` | files.dfy | stored-name convention, `FileService`, save/download round trips |
| `Controller` | controller.dfy | outbound name, Content-Disposition, Content-Length, `FileController.downloadFile` |

How the model is built:

- The bucket store is a class whose field maps `(bucket, key)` locations to objects. Each object
  keeps its declared Content-Length and its bytes, and a put replaces what was there.
- The repository is a class holding a map and an id counter.
- `FileService`, `S3Service` and `FileController` are classes. Their configuration (`bucketName`,
  `folder`) and collaborators are constant fields set by the constructor.
- The stream's `read` hands over 1 to 1024 bytes, returns -1 at the end, or fails with an
  IOException. How many bytes arrive, and whether a read fails, is chosen nondeterministically,
  because the network decides it.
- Reading the multipart bytes fails exactly when the part is marked unreadable.
- The clock is a `millis: nat` parameter of `SaveFile`.
- `URLEncoder.encode` is an `Encoder` parameter. It returns `None` where it would throw
  UnsupportedEncodingException.

Two behaviours of the code are worth stating outright:

- `FileService.downloadFile` passes the service's configured `folder` to the store
  (src/main/java/com/example/demo/service/FileService.java:56). It never reads the record's
  `folder` field. `Files.FileService.DownloadFile` states the key in terms of the service's
  folder. If that folder differs from the one the file was saved under, the round trip breaks,
  and `Files.DownloadAfterFolderChange` shows how.
- A missing object makes `getObject` raise the SDK's NoSuchKeyException. The `catch (IOException)`
  in `S3Service.downloadFile` does not wrap it. The model keeps it as its own error, `NoSuchKey`,
  separate from the `IllegalArgument` raised for an unknown id or a failed transfer.

## Model

| member | source | states |
|---|---|---|
| `Strings.DecimalString` | src/main/java/com/example/demo/service/FileService.java:40 | the timestamp prefix is a non-empty string of decimal digits with no leading zero and no dash |
| `Strings.ParseDecimalString` | src/main/java/com/example/demo/service/FileService.java:40 | reading the decimal prefix back gives the millisecond value it was built from |
| `Strings.DecimalStringInjective` | src/main/java/com/example/demo/service/FileService.java:40 | distinct milliseconds render as distinct prefixes |
| `Strings.LastIndexOf` | src/main/java/com/example/demo/controller/FileController.java:55 | `lastIndexOf` gives -1 exactly when the character is absent; otherwise it gives a position holding the character with none after it |
| `Files.StoredName` | src/main/java/com/example/demo/service/FileService.java:40 | the stored name `<millis>-<original name>` reads back as exactly (millis, original name), dashes in the name included |
| `Files.SplitStoredName` | src/main/java/com/example/demo/service/FileService.java:40 | a name is accepted only as a canonical decimal numeral, a dash and the rest, and the accepted pair rebuilds exactly that name |
| `Files.StoredNameFirstDash` | src/main/java/com/example/demo/service/FileService.java:40 | a stored name is the decimal millis, then `-` (its first dash), then the original file name |
| `Files.SplitStoredNameInverse` | src/main/java/com/example/demo/service/FileService.java:40 | a name splits into (millis, name) exactly when it is that pair's stored name, so splitting and building are inverse in both directions |
| `Files.StoredNameCollision` | src/main/java/com/example/demo/service/FileService.java:40 | two uploads get the same stored name exactly when both millisecond and original name agree |
| `S3.SplitKey` | src/main/java/com/example/demo/service/S3Service.java:27 | splitting at the first slash gives a slash-free folder and a rest joined by `/` into the key; it fails exactly when the key has no slash |
| `S3.Key` | src/main/java/com/example/demo/service/S3Service.java:27 | the key `folder + "/" + filename`, for a slash-free folder, splits back into exactly that folder and file name |
| `S3.DistinctFoldersDistinctKeys` | src/main/java/com/example/demo/service/S3Service.java:43 | two different slash-free folders never produce the same key, whatever the file names |
| `S3.SameNameDistinctFolders` | src/main/java/com/example/demo/service/S3Service.java:43 | for the same file name, two different folders, slashes included, never give the same key |
| `S3.KeyInjectiveInName` | src/main/java/com/example/demo/service/S3Service.java:27 | within any one folder, two keys are equal exactly when the file names are, so the configured folder and the key determine the stored name |
| `S3.ObjectInputStream.Read` | src/main/java/com/example/demo/service/S3Service.java:56 | `read` returns -1 exactly at end of stream, leaving the buffer alone. Otherwise it returns 1 to buffer-length bytes, copied from the cursor into the buffer's front, with the rest of the buffer untouched. Or it fails, and cursor and buffer stay as they were |
| `Entities.MultipartFile.GetBytes` | src/main/java/com/example/demo/service/S3Service.java:36 | `getBytes` succeeds exactly when the part is readable, and then returns all its bytes, as many as `getSize` reports |
| `S3.S3Client.PutObject` | src/main/java/com/example/demo/service/S3Service.java:36 | a put replaces the object at the location and keeps every object's declared length equal to its size |
| `S3.S3Client.GetObject` | src/main/java/com/example/demo/service/S3Service.java:50 | getting a missing location raises NoSuchKey; otherwise it returns a fresh stream at the start of the object's bytes |
| `S3.S3Service.UploadFile` | src/main/java/com/example/demo/service/S3Service.java:24-39 | the part's exact bytes are stored under `folder + "/" + filename` with its size as Content-Length; an unreadable part raises IllegalArgument and the store is unchanged |
| `S3.S3Service.DownloadFile` | src/main/java/com/example/demo/service/S3Service.java:42-64 | the chunked loop keeps the output equal to the bytes consumed so far and returns the whole object at end of stream; a missing key raises NoSuchKey; a failed read raises IllegalArgument with no partial result |
| `Repository.FileRepository.Save` | src/main/java/com/example/demo/service/FileService.java:51 | the entity gets a fresh id and becomes exactly one new row; existing rows are untouched |
| `Repository.FileRepository.FindById` | src/main/java/com/example/demo/service/FileService.java:35 | a row is found exactly when the id is present, and it carries that id |
| `Repository.FileRepository.FindAll` | src/main/java/com/example/demo/service/FileService.java:31 | every stored row is listed, and each listed row is the one stored under its own id |
| `Files.FileService.GetAllFiles` | src/main/java/com/example/demo/service/FileService.java:30-32 | the listing is exactly the set of stored rows, unfiltered |
| `Files.FileService.GetFile` | src/main/java/com/example/demo/service/FileService.java:34-36 | a present id yields its row; an absent id raises IllegalArgument (record not found) |
| `Files.FileService.DownloadLocation` | src/main/java/com/example/demo/service/FileService.java:56 | the download location is in the service's bucket; for a slash-free configured folder its key splits back into that folder and the stored name |
| `Files.FileService.SaveFile` | src/main/java/com/example/demo/service/FileService.java:38-52 | upload happens before record creation. A failed upload changes neither store nor repository. A successful save stores the bytes at `folder/<millis>-<name>` and adds one record with the form's title and description, the configured folder and that same stored name |
| `Files.FileService.DownloadFile` | src/main/java/com/example/demo/service/FileService.java:54-59 | an unknown id raises record-not-found, never a store error. Otherwise the key is built from the service's configured folder and the record's stored name, and the result pairs the full stored name with the object's bytes |
| `Files.SaveThenDownload` | src/main/java/com/example/demo/service/FileService.java:38-59 | saving bytes and then downloading the assigned id returns those bytes under the full stored name, unless the transfer fails |
| `Files.SaveTwiceSameMillis` | src/main/java/com/example/demo/service/FileService.java:40-42 | two saves with the same millisecond and original name share a key, so the first record downloads the second upload's bytes |
| `Files.DownloadAfterFolderChange` | src/main/java/com/example/demo/service/FileService.java:56 | a service configured with any other folder finds the record but gets NoSuchKey, because it ignores the record's folder (assuming nothing was already stored under its own key for that name) |
| `Controller.OutboundName` | src/main/java/com/example/demo/controller/FileController.java:54-55 | the download name is the stored name's longest dash-free tail: the whole name when it has no dash, otherwise what follows the last dash; it never contains a dash |
| `Controller.OutboundNameAfterDash` | src/main/java/com/example/demo/controller/FileController.java:55 | the tail after a dash that has no dash after it is the download name |
| `Controller.OutboundNameOfStoredName` | src/main/java/com/example/demo/controller/FileController.java:55 | for `<millis>-<orig>`, the download name equals `orig` exactly when `orig` has no dash; otherwise it is `orig`'s last dash-separated segment |
| `Controller.ReportExample` | src/main/java/com/example/demo/controller/FileController.java:55 | `1700000000000-report.pdf` is offered as `report.pdf` |
| `Controller.DashedNameExample` | src/main/java/com/example/demo/controller/FileController.java:55 | `<millis>-my-report.pdf` is offered as `report.pdf`, losing the head of the original name |
| `Controller.DispositionFilename` | src/main/java/com/example/demo/controller/FileController.java:58 | an accepted header is exactly the prefix `attachment; filename="`, the name and a closing quote |
| `Controller.ContentDisposition` | src/main/java/com/example/demo/controller/FileController.java:58 | the header value `attachment; filename="<encoded>"` reads back as exactly the encoded name |
| `Controller.ShapeDownload` | src/main/java/com/example/demo/controller/FileController.java:53-65 | the header carries the encoded download name, Content-Length is the payload's length, the body is the downloaded bytes, and an encoding failure raises a RuntimeException |
| `Controller.FileController.DownloadFile` | src/main/java/com/example/demo/controller/FileController.java:50-66 | service errors pass through unchanged (record-not-found, NoSuchKey, IllegalArgument on transfer failure); otherwise the response is shaped from the stored name and the object's bytes |

## Left out

- Files.FileService.DownloadLocation: the split-back promise is stated only for a slash-free folder, because for a folder such as `up/img` the first slash falls inside the folder. For every folder, `S3.KeyInjectiveInName` still proves that the key determines the stored name.
- Spring wiring: annotations, dependency injection, `@Value` loading, view names, `Model`, and the
  `list`, `form` and `save` endpoints. These only forward to the service or render a view.
  Configuration is passed to constructors instead.
- AWS SDK internals: the network, request builders and the content type. Any SDK failure other
  than NoSuchKey is left out too. Those exceptions are not IOExceptions, so the code would pass
  them through unwrapped. In the model, `PutObject` always succeeds.
- JPA internals: how identity values are really generated, the order of `findAll`, a `save` of an
  entity that already has an id (a merge), and database failures. Because database failures are
  not modelled, the case where the upload succeeds but the record save fails, leaving an orphaned
  object, is not modelled either.
- `URLEncoder.encode`: UTF-8 and percent-encoding are not modelled. It is an opaque parameter.
- `System.currentTimeMillis`: it is a natural-number input. Negative values, which would render
  with a `-`, cannot occur.
- `createdDate`: never set by `saveFile`, so the model leaves it out.
- A null original filename, which Java would render as the text `null`.
- Concurrency: same-millisecond saves are modelled only in sequence (`Files.SaveTwiceSameMillis`).
- Stream lifecycle: closing streams, and transfers aborted mid-way. A failed read simply ends
  the download with an error.
