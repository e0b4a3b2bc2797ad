/**
 * FileService: the stored-name convention and the save, lookup, listing and
 * download flows that sequence the object store and the repository.
 */
module Files {
  import opened Wrappers
  import opened Entities
  import Strings
  import opened S3
  import opened Repository

  /**
   * The stored name: the upload time in decimal milliseconds, a dash, the
   * original file name. It always reads back as exactly that pair, whether or
   * not the original name contains dashes.
   */
  function StoredName(millis: nat, originalFilename: string): (r: string)
    ensures SplitStoredName(r) == Some((millis, originalFilename))
  {
    var name := Strings.DecimalString(millis) + "-" + originalFilename;
    StoredNameFirstDash(millis, originalFilename);
    Strings.ParseDecimalString(millis);
    name
  }

  /**
   * Reads a name as (milliseconds, original name), splitting at the first dash.
   * It accepts only what the stored-name convention produces: a canonical
   * decimal numeral, a dash, and the rest.
   */
  function SplitStoredName(name: string): (r: Option<(nat, string)>)
    ensures r.Some? ==> Strings.DecimalString(r.value.0) + "-" + r.value.1 == name
  {
    var i := Strings.IndexOf(name, '-');
    if i <= 0 || !Strings.IsCanonicalDecimal(name[..i]) then None
    else
      Strings.DecimalStringOfParse(name[..i]);
      assert name == name[..i] + "-" + name[i + 1..];
      Some((Strings.ParseDecimal(name[..i]), name[i + 1..]))
  }

  /** The first dash of a stored name is the one that ends the timestamp. */
  lemma {:induction false} StoredNameFirstDash(millis: nat, originalFilename: string)
    ensures var name := Strings.DecimalString(millis) + "-" + originalFilename;
      var prefix := Strings.DecimalString(millis);
      && Strings.IndexOf(name, '-') == |prefix|
      && name[..|prefix|] == prefix
      && name[|prefix| + 1..] == originalFilename
  {
    var name := Strings.DecimalString(millis) + "-" + originalFilename;
    var prefix := Strings.DecimalString(millis);
    assert name[..|prefix|] == prefix;
    Strings.IndexOfAt(name, '-', |prefix|);
    assert name[|prefix| + 1..] == originalFilename;
  }

  /** SplitStoredName and StoredName are inverse: a name splits into a pair exactly when it is that pair's stored name. */
  lemma SplitStoredNameInverse(name: string, millis: nat, originalFilename: string)
    ensures SplitStoredName(name) == Some((millis, originalFilename)) <==> name == StoredName(millis, originalFilename)
  {
  }

  /** Two saves share a stored name, and so an object key, exactly when millisecond and original name agree. */
  lemma StoredNameCollision(millis1: nat, name1: string, millis2: nat, name2: string)
    ensures StoredName(millis1, name1) == StoredName(millis2, name2) <==> millis1 == millis2 && name1 == name2
  {
  }

  class FileService {
    const bucketName: string
    const folder: string
    const s3Service: S3Service
    const fileRepository: FileRepository

    ghost predicate Valid()
      reads s3Service.client, fileRepository
    {
      s3Service.client.Valid() && fileRepository.Valid()
    }

    constructor (bucketName: string, folder: string, s3Service: S3Service, fileRepository: FileRepository)
      requires s3Service.client.Valid() && fileRepository.Valid()
      ensures Valid()
      ensures this.bucketName == bucketName && this.folder == folder
      ensures this.s3Service == s3Service && this.fileRepository == fileRepository
    {
      this.bucketName := bucketName;
      this.folder := folder;
      this.s3Service := s3Service;
      this.fileRepository := fileRepository;
    }

    /**
     * Where the service's download flow looks for a stored name: its own
     * bucket, and a key built from its own configured folder (never from a
     * record's `folder` field).
     */
    function DownloadLocation(filename: string): (r: Location)
      ensures r.bucket == bucketName
      ensures '/' !in folder ==> SplitKey(r.key) == Some((folder, filename))
    {
      Location(bucketName, Key(folder, filename))
    }

    /** Every record, unfiltered and in no particular order. */
    function GetAllFiles(): (r: set<FileEntity>)
      reads fileRepository
      requires fileRepository.Valid()
      ensures r == fileRepository.records.Values
    {
      fileRepository.FindAll()
    }

    /** The record with that identifier, or IllegalArgument when there is none. */
    function GetFile(id: int): (r: Result<FileEntity, Error>)
      reads fileRepository
      requires fileRepository.Valid()
      ensures id in fileRepository.records ==> r == Ok(fileRepository.records[id])
      ensures id !in fileRepository.records ==> r == Err(IllegalArgument(RecordNotFound))
    {
      match fileRepository.FindById(id)
      case Some(entity) => Ok(entity)
      case None => Err(IllegalArgument(RecordNotFound))
    }

    /**
     * Uploads the part under the stored name built from `millis`, and only
     * then saves a record of it. A failed upload therefore leaves both the
     * store and the repository as they were.
     */
    method SaveFile(form: SaveFileForm, millis: nat) returns (r: Result<(), Error>)
      requires Valid()
      modifies s3Service.client, fileRepository
      ensures Valid()
      ensures r.Ok? <==> form.upfile.readable
      ensures r.Err? ==>
        && r.error == IllegalArgument(IOFailure)
        && s3Service.client.objects == old(s3Service.client.objects)
        && fileRepository.records == old(fileRepository.records)
        && fileRepository.nextId == old(fileRepository.nextId)
      ensures r.Ok? ==>
        var filename := StoredName(millis, form.upfile.originalFilename);
        && s3Service.client.objects == old(s3Service.client.objects)
             [DownloadLocation(filename) := S3Object(form.upfile.Size(), form.upfile.bytes)]
        && old(fileRepository.nextId) !in old(fileRepository.records)
        && fileRepository.records == old(fileRepository.records)
             [old(fileRepository.nextId) :=
                FileEntity(Some(old(fileRepository.nextId)), form.title, form.description, folder, filename)]
    {
      var upfile := form.upfile;
      var filename := StoredName(millis, upfile.originalFilename);
      var uploaded := s3Service.UploadFile(form.upfile, bucketName, folder, filename);
      if uploaded.Err? {
        return Err(uploaded.error);
      }
      var entity := FileEntity(None, form.title, form.description, folder, filename);
      var _ := fileRepository.Save(entity);
      r := Ok(());
    }

    /**
     * Looks the record up, then downloads the object under the service's own
     * configured folder and the record's stored name (the record's `folder`
     * field is not consulted), and pairs the bytes with the full stored name.
     * An unknown identifier fails with the repository's error and never with
     * one of the store's.
     */
    method DownloadFile(id: int) returns (r: Result<DownloadFileData, Error>)
      requires Valid()
      ensures id !in fileRepository.records ==> r == Err(IllegalArgument(RecordNotFound))
      ensures id in fileRepository.records ==>
        var filename := fileRepository.records[id].filename;
        var loc := DownloadLocation(filename);
        && (loc !in s3Service.client.objects ==> r == Err(NoSuchKey(loc.key)))
        && (loc in s3Service.client.objects ==>
              r == Ok(DownloadFileData(filename, s3Service.client.objects[loc].data)) ||
              r == Err(IllegalArgument(IOFailure)))
    {
      var entity := GetFile(id);
      if entity.Err? {
        return Err(entity.error);
      }
      var resource := s3Service.DownloadFile(bucketName, folder, entity.value.filename);
      if resource.Err? {
        return Err(resource.error);
      }
      r := Ok(DownloadFileData(entity.value.filename, resource.value));
    }
  }

  /**
   * Save, then download the identifier the repository assigned, with nothing
   * in between: the bytes come back unchanged under the full stored name,
   * unless the transfer itself fails.
   */
  method SaveThenDownload(service: FileService, form: SaveFileForm, millis: nat)
    returns (saved: Result<(), Error>, downloaded: Result<DownloadFileData, Error>)
    requires service.Valid()
    modifies service.s3Service.client, service.fileRepository
    ensures saved.Ok? <==> form.upfile.readable
    ensures saved.Ok? ==>
      downloaded == Ok(DownloadFileData(StoredName(millis, form.upfile.originalFilename), form.upfile.bytes)) ||
      downloaded == Err(IllegalArgument(IOFailure))
  {
    var id := service.fileRepository.nextId;
    saved := service.SaveFile(form, millis);
    if saved.Err? {
      downloaded := Err(saved.error);
      return;
    }
    downloaded := service.DownloadFile(id);
  }

  /**
   * Two saves of the same original name in the same millisecond share one key:
   * the second put replaces the first object, so downloading the first record
   * returns the second upload's bytes.
   */
  method SaveTwiceSameMillis(service: FileService, form1: SaveFileForm, form2: SaveFileForm, millis: nat)
    returns (first: Result<DownloadFileData, Error>)
    requires service.Valid()
    requires form1.upfile.readable && form2.upfile.readable
    requires form1.upfile.originalFilename == form2.upfile.originalFilename
    modifies service.s3Service.client, service.fileRepository
    ensures first == Ok(DownloadFileData(StoredName(millis, form1.upfile.originalFilename), form2.upfile.bytes)) ||
            first == Err(IllegalArgument(IOFailure))
  {
    var id := service.fileRepository.nextId;
    var _ := service.SaveFile(form1, millis);
    var _ := service.SaveFile(form2, millis);
    first := service.DownloadFile(id);
  }

  /**
   * A second service sharing store and repository but configured with another
   * folder cannot download what the first one saved: the record is found, but
   * the key it builds from its own folder names no object (given that nothing
   * was stored under that key beforehand).
   */
  method DownloadAfterFolderChange(saver: FileService, downloader: FileService, form: SaveFileForm, millis: nat)
    returns (downloaded: Result<DownloadFileData, Error>)
    requires saver.Valid() && form.upfile.readable
    requires downloader.s3Service.client == saver.s3Service.client
    requires downloader.fileRepository == saver.fileRepository
    requires downloader.bucketName == saver.bucketName
    requires saver.folder != downloader.folder
    requires downloader.DownloadLocation(StoredName(millis, form.upfile.originalFilename)) !in saver.s3Service.client.objects
    modifies saver.s3Service.client, saver.fileRepository
    ensures var name := StoredName(millis, form.upfile.originalFilename);
      downloaded == Err(NoSuchKey(Key(downloader.folder, name)))
  {
    var id := saver.fileRepository.nextId;
    var _ := saver.SaveFile(form, millis);
    SameNameDistinctFolders(saver.folder, downloader.folder, StoredName(millis, form.upfile.originalFilename));
    downloaded := downloader.DownloadFile(id);
  }
}
