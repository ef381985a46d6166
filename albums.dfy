// The album aggregator of src/lib/api.ts (getAlbums): every album record of the content
// store becomes an Album carrying the record's fields, `id` set to the record's `_id`, and
// the photos the resolver finds in the record's storage folder.
//
// The resolver (getImagesFromDrive, module Drive) is a parameter `resolve`; the
// concurrent fan-out is a map, because each result lands in its own record's slot.

module Albums {
  import opened Types
  import Drive

  /** An album record as the albums query returns it (`_id` is `docId` here). */
  datatype AlbumRecord = AlbumRecord(
    docId: string,
    title: string,
    description: Option<LocalizedText>,
    date: string,
    tags: seq<string>,
    coverImage: Option<ImageRef>,
    googleDriveId: Option<string>)

  /** `{ ...record, id: record._id, photos }`. */
  datatype Album = Album(
    docId: string,
    title: string,
    description: Option<LocalizedText>,
    date: string,
    tags: seq<string>,
    coverImage: Option<ImageRef>,
    googleDriveId: Option<string>,
    id: string,
    photos: seq<Drive.DriveImage>)

  /** `album.googleDriveId` is truthy: present and not empty. */
  predicate HasFolder(record: AlbumRecord)
  {
    record.googleDriveId.Some? && record.googleDriveId.value != ""
  }

  /** The record fields an album carries over, read back from the album. */
  function RecordOf(album: Album): AlbumRecord
  {
    AlbumRecord(album.docId, album.title, album.description, album.date, album.tags,
                album.coverImage, album.googleDriveId)
  }

  /** One record merged with its photos: the resolver's result for its folder, or none without a folder. */
  function WithPhotos(record: AlbumRecord, resolve: string -> seq<Drive.DriveImage>): (album: Album)
    ensures RecordOf(album) == record
    ensures album.id == record.docId
    ensures HasFolder(record) ==> album.photos == resolve(record.googleDriveId.value)
    ensures !HasFolder(record) ==> album.photos == []
  {
    var photos := if HasFolder(record) then resolve(record.googleDriveId.value) else [];
    Album(record.docId, record.title, record.description, record.date, record.tags,
          record.coverImage, record.googleDriveId, record.docId, photos)
  }

  /** getAlbums after the records are fetched: one album per record, in record order. */
  function GetAlbums(records: seq<AlbumRecord>, resolve: string -> seq<Drive.DriveImage>): (albums: seq<Album>)
    ensures |albums| == |records|
    ensures forall i :: 0 <= i < |records| ==> albums[i] == WithPhotos(records[i], resolve)
  {
    if records == [] then []
    else [WithPhotos(records[0], resolve)] + GetAlbums(records[1..], resolve)
  }

  /** The folder ids the resolver is called with, in record order. */
  function FolderLookups(records: seq<AlbumRecord>): (ids: seq<string>)
    ensures forall id :: id in ids ==> id != ""
    ensures forall i :: 0 <= i < |records| && HasFolder(records[i]) ==> records[i].googleDriveId.value in ids
    ensures forall id :: id in ids ==>
      exists i :: 0 <= i < |records| && HasFolder(records[i]) && records[i].googleDriveId.value == id
  {
    if records == [] then []
    else
      var rest := FolderLookups(records[1..]);
      assert forall i :: 1 <= i < |records| ==> records[i] == records[1..][i - 1];
      assert forall id :: id in rest ==>
        exists i :: 1 <= i < |records| && HasFolder(records[i]) && records[i].googleDriveId.value == id;
      (if HasFolder(records[0]) then [records[0].googleDriveId.value] else []) + rest
  }

  // ---------------------------------------------------------------------------
  // Properties
  // ---------------------------------------------------------------------------

  /**
   * The resolver is consulted only for the looked-up folders: two resolvers that agree on
   * those ids give the same albums, whatever they do on any other id (the empty one included).
   */
  lemma {:induction false} OnlyLookupsMatter(records: seq<AlbumRecord>, f: string -> seq<Drive.DriveImage>, g: string -> seq<Drive.DriveImage>)
    requires forall id :: id in FolderLookups(records) ==> f(id) == g(id)
    ensures GetAlbums(records, f) == GetAlbums(records, g)
  {
    if records != [] {
      assert forall id :: id in FolderLookups(records[1..]) ==> id in FolderLookups(records);
      OnlyLookupsMatter(records[1..], f, g);
    }
  }

  /** Fetching more records appends their albums: the aggregation works record by record. */
  lemma {:induction false} GetAlbumsAppend(a: seq<AlbumRecord>, b: seq<AlbumRecord>, resolve: string -> seq<Drive.DriveImage>)
    ensures GetAlbums(a + b, resolve) == GetAlbums(a, resolve) + GetAlbums(b, resolve)
  {
    if a == [] {
      assert a + b == b;
    } else {
      assert (a + b)[1..] == a[1..] + b;
      GetAlbumsAppend(a[1..], b, resolve);
    }
  }
}
