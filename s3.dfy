/**
 * The object-storage side: the key convention shared by upload and download,
 * the bucket as a map from locations to stored objects, the input stream an
 * object is read through, and S3Service with its 1024-byte read loop.
 */
module S3 {
  import opened Wrappers
  import opened Entities
  import Strings

  /**
   * The object key: the folder, a slash, then the file name. With a
   * slash-free folder the key determines both parts again.
   */
  function Key(folder: string, filename: string): (r: string)
    ensures '/' !in folder ==> SplitKey(r) == Some((folder, filename))
  {
    var key := folder + "/" + filename;
    assert key[..|folder|] == folder && key[|folder| + 1..] == filename;
    if '/' in folder then key
    else
      Strings.IndexOfAt(key, '/', |folder|);
      key
  }

  /** Splits a key at its first slash into a slash-free folder and the rest. */
  function SplitKey(key: string): (r: Option<(string, string)>)
    ensures r.Some? ==> '/' !in r.value.0 && r.value.0 + "/" + r.value.1 == key
    ensures r.None? <==> '/' !in key
  {
    var i := Strings.IndexOf(key, '/');
    if i < 0 then None
    else
      assert key == key[..i] + "/" + key[i + 1..];
      Some((key[..i], key[i + 1..]))
  }

  /** Two slash-free folders that differ never share a key, whatever the file names. */
  lemma DistinctFoldersDistinctKeys(folder1: string, folder2: string, name1: string, name2: string)
    requires '/' !in folder1 && '/' !in folder2 && folder1 != folder2
    ensures Key(folder1, name1) != Key(folder2, name2)
  {
  }

  /** With the same file name, different folders give different keys, slashes in the folders or not. */
  lemma SameNameDistinctFolders(folder1: string, folder2: string, filename: string)
    requires folder1 != folder2
    ensures Key(folder1, filename) != Key(folder2, filename)
  {
    var key1, key2 := Key(folder1, filename), Key(folder2, filename);
    assert key1[..|folder1|] == folder1 && key2[..|folder2|] == folder2;
    if |folder1| == |folder2| {
      assert key1[..|folder1|] != key2[..|folder1|];
    }
  }

  /** Within one folder, whatever it contains, the key determines the file name. */
  lemma KeyInjectiveInName(folder: string, filename1: string, filename2: string)
    ensures Key(folder, filename1) == Key(folder, filename2) <==> filename1 == filename2
  {
    if Key(folder, filename1) == Key(folder, filename2) {
      var key := Key(folder, filename1);
      assert key[|folder| + 1..] == filename1;
      assert Key(folder, filename2)[|folder| + 1..] == filename2;
    }
  }

  /** Where an object lives: an opaque bucket name and a key within it. */
  datatype Location = Location(bucket: string, key: string)

  /** A stored object: the Content-Length it was declared with and its bytes. */
  datatype S3Object = S3Object(contentLength: nat, data: seq<Byte>)

  /** The stream `getObject` returns: the object's bytes and a read cursor. */
  class ObjectInputStream {
    const content: seq<Byte>
    var pos: nat

    ghost predicate Valid()
      reads this
    {
      pos <= |content|
    }

    constructor (content: seq<Byte>)
      ensures Valid() && this.content == content && pos == 0
    {
      this.content := content;
      pos := 0;
    }

    /**
     * `read(buffer)`: copies the next 1..buffer.Length bytes into the front of
     * the buffer and returns how many, or returns -1 at end of stream, or fails
     * with an IOException. How many bytes arrive and whether the transfer fails
     * are up to the network, so both are chosen nondeterministically.
     */
    method Read(buffer: array<Byte>) returns (r: Result<int, ()>)
      requires Valid() && buffer.Length > 0
      modifies this, buffer
      ensures Valid()
      ensures r.Err? ==> pos == old(pos)
      ensures r.Err? || r.value == -1 ==> buffer[..] == old(buffer[..])
      ensures r.Ok? ==> (r.value == -1 <==> old(pos) == |content|)
      ensures r.Ok? && r.value == -1 ==> pos == old(pos)
      ensures r.Ok? && r.value != -1 ==>
        1 <= r.value <= buffer.Length && pos == old(pos) + r.value &&
        buffer[..r.value] == content[old(pos)..pos] &&
        buffer[r.value..] == old(buffer[r.value..])
    {
      var fails: bool :| true;
      if fails {
        return Err(());
      }
      if pos == |content| {
        return Ok(-1);
      }
      var n: int :| 1 <= n <= buffer.Length && pos + n <= |content|;
      forall i | 0 <= i < n {
        buffer[i] := content[pos + i];
      }
      pos := pos + n;
      r := Ok(n);
    }
  }

  /** The bucket store behind `S3Client`: a put replaces whatever the location held. */
  class S3Client {
    var objects: map<Location, S3Object>

    /** Every object holds exactly as many bytes as it was declared with. */
    ghost predicate Valid()
      reads this
    {
      forall loc | loc in objects :: objects[loc].contentLength == |objects[loc].data|
    }

    constructor ()
      ensures Valid() && objects == map[]
    {
      objects := map[];
    }

    /** `putObject`; the store refuses a body whose length is not the declared Content-Length. */
    method PutObject(loc: Location, contentLength: nat, body: seq<Byte>)
      requires Valid() && contentLength == |body|
      modifies this
      ensures Valid()
      ensures objects == old(objects)[loc := S3Object(contentLength, body)]
    {
      objects := objects[loc := S3Object(contentLength, body)];
    }

    /** `getObject`: a fresh stream over the object, or NoSuchKey when the location is empty. */
    method GetObject(loc: Location) returns (r: Result<ObjectInputStream, Error>)
      ensures loc !in objects ==> r == Err(NoSuchKey(loc.key))
      ensures loc in objects ==>
        r.Ok? && fresh(r.value) && r.value.Valid() &&
        r.value.content == objects[loc].data && r.value.pos == 0
    {
      if loc !in objects {
        return Err(NoSuchKey(loc.key));
      }
      var stream := new ObjectInputStream(objects[loc].data);
      r := Ok(stream);
    }
  }

  /** The adapter the file service talks to. */
  class S3Service {
    const client: S3Client

    constructor (client: S3Client)
      ensures this.client == client
    {
      this.client := client;
    }

    /**
     * Stores the part's bytes under `folder + "/" + filename`, declaring the
     * part's size as the Content-Length. If reading the part fails, the
     * IOException becomes an IllegalArgumentException and nothing is stored.
     */
    method UploadFile(multipartFile: MultipartFile, bucketName: string, folder: string, filename: string)
      returns (r: Result<(), Error>)
      requires client.Valid()
      modifies client
      ensures client.Valid()
      ensures r.Ok? <==> multipartFile.readable
      ensures r.Err? ==> r.error == IllegalArgument(IOFailure) && client.objects == old(client.objects)
      ensures r.Ok? ==>
        var loc := Location(bucketName, Key(folder, filename));
        client.objects == old(client.objects)[loc := S3Object(multipartFile.Size(), multipartFile.bytes)]
    {
      var s3Filename := Key(folder, filename);
      var loc := Location(bucketName, s3Filename);
      var contentLength := multipartFile.Size();
      var bytes := multipartFile.GetBytes();
      if bytes.Err? {
        return Err(IllegalArgument(IOFailure));
      }
      client.PutObject(loc, contentLength, bytes.value);
      r := Ok(());
    }

    /**
     * Reads the object under `folder + "/" + filename` in chunks of at most
     * 1024 bytes until end of stream. A missing object raises NoSuchKey, which
     * the IOException handler does not catch; a failed read becomes an
     * IllegalArgumentException and no partial content is returned.
     */
    method DownloadFile(bucketName: string, folder: string, filename: string)
      returns (r: Result<seq<Byte>, Error>)
      requires client.Valid()
      ensures var loc := Location(bucketName, Key(folder, filename));
        && (loc !in client.objects ==> r == Err(NoSuchKey(loc.key)))
        && (loc in client.objects ==>
              r == Ok(client.objects[loc].data) || r == Err(IllegalArgument(IOFailure)))
    {
      var s3Filename := Key(folder, filename);
      var got := client.GetObject(Location(bucketName, s3Filename));
      if got.Err? {
        return Err(got.error);
      }
      var inputStream := got.value;
      var buffer := new Byte[1024];
      var outputStream: seq<Byte> := [];
      while true
        invariant inputStream.Valid()
        invariant outputStream == inputStream.content[..inputStream.pos]
        decreases |inputStream.content| - inputStream.pos
      {
        var read := inputStream.Read(buffer);
        if read.Err? {
          return Err(IllegalArgument(IOFailure));
        }
        var length := read.value;
        if length == -1 {
          break;
        }
        outputStream := outputStream + buffer[..length];
      }
      assert outputStream == inputStream.content;
      r := Ok(outputStream);
    }
  }
}
