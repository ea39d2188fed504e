/** One file entry of a torrent, as the v1 list and the v2 tree both describe it. */
module TorrentFiles {
  import opened Common
  import opened Orders
  import opened Bencode

  datatype Kind = Padding | Symlink | Regular

  datatype TorrentFile = TorrentFile(length: nat, kind: Kind, rawPath: Path, rawTarget: Option<Path>)

  function ParseKind(attr: Name): Result<Kind> {
    var padding, link := 'p' as int in attr, 'l' as int in attr;
    if padding && link then Err(FileAttributes)
    else Ok(if padding then Padding else if link then Symlink else Regular)
  }

  function ParseFile(d: Dictionary, rawPath: Path): (r: Result<TorrentFile>)
    ensures r.Ok? ==> r.value.rawPath == rawPath && (r.value.kind.Symlink? <==> r.value.rawTarget.Some?)
    ensures r.Ok? && r.value.kind.Symlink? ==> r.value.length == 0
    ensures r.Ok? ==> r.value.length < 0x8000_0000_0000_0000
    ensures r.Err? ==> r.reason != PathConflict
  {
    var attr :- OptionalBytes(d, ATTR);
    var kind :- ParseKind(attr.GetOr([]));
    var length :- if kind.Symlink? && Get(d, LENGTH).None? then Ok(0) else Length(d, LENGTH);
    if kind.Symlink? && length != 0 then Err(SymlinkLength)
    else
      var target :- ParseTarget(d, kind);
      var sha1 :- OptionalBytes(d, SHA1);
      if sha1.Some? && |sha1.value| != 20 then Err(FileSha1Length)
      else Ok(TorrentFile(length, kind, rawPath, target))
  }

  function ParseTarget(d: Dictionary, kind: Kind): (r: Result<Option<Path>>)
    ensures r.Ok? ==> (kind.Symlink? <==> r.value.Some?)
    ensures r.Err? ==> r.reason != PathConflict
  {
    if !kind.Symlink? then Ok(None)
    else
      var v :- Required(d, SYMLINK_PATH);
      var p :- ReadPath(v);
      Ok(Some(p))
  }
}
