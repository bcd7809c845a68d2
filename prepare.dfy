/**
 * `preparar_archivos_desde_directorio`: turns the regular files found by a recursive walk
 * of a local directory into the file dicts the uploader takes. The walk itself (which
 * entries, in which order, and what reading each one yields) is an input.
 */
module Prepare {
  import opened Wrappers
  import Base64
  import Utf8
  import Seqs
  import opened Upload

  /**
   * One item the walk yields: its path relative to the walked directory, whether it is a
   * regular file, and its text as `read()` returns it in text mode (line endings CRLF and
   * CR already turned into LF), or None when opening or reading it as UTF-8 raises.
   */
  datatype WalkEntry = WalkEntry(rel: string, isFile: bool, text: Option<string>)

  /** `s.replace('\\', '/')`. */
  function ToForwardSlashes(s: string): (r: string)
    ensures |r| == |s|
    ensures forall i :: 0 <= i < |s| ==> r[i] == if s[i] == '\\' then '/' else s[i]
  {
    if s == [] then [] else ToForwardSlashes(s[..|s| - 1]) + [if s[|s| - 1] == '\\' then '/' else s[|s| - 1]]
  }

  /** The repository path of a walked file: the prefix and the relative path joined with `/` (just the relative path without a prefix), separators normalised. */
  function RemotePath(prefix: string, rel: string): string {
    ToForwardSlashes(if prefix != "" then prefix + "/" + rel else rel)
  }

  /** Every walked file could be read: otherwise the helper raises. */
  predicate Readable(walk: seq<WalkEntry>) {
    forall i :: 0 <= i < |walk| && walk[i].isFile ==> walk[i].text.Some?
  }

  /** The dict built for one readable walked file. */
  function FileRequest(e: WalkEntry, prefix: string): FileSpec
    requires e.text.Some?
  {
    FileSpec(Some(RemotePath(prefix, e.rel)), Some(e.text.value), Some(DefaultEncoding))
  }

  /** The specification of the helper's result: one dict per regular file, in walk order. */
  function Requests(walk: seq<WalkEntry>, prefix: string): seq<FileSpec>
    requires Readable(walk)
  {
    if walk == [] then []
    else
      var last := walk[|walk| - 1];
      Requests(walk[..|walk| - 1], prefix) + (if last.isFile then [FileRequest(last, prefix)] else [])
  }

  /** Whether a walked entry is a regular file (`item.is_file()`). */
  predicate IsRegularFile(e: WalkEntry) {
    e.isFile
  }

  /** The regular files of the walk, in walk order. */
  function RegularFiles(walk: seq<WalkEntry>): seq<WalkEntry> {
    Seqs.Filter(walk, IsRegularFile)
  }

  /** No backslash survives the normalisation, and every other character is kept in place. */
  lemma ForwardSlashesOnly(s: string)
    ensures '\\' !in ToForwardSlashes(s)
    ensures '\\' !in s ==> ToForwardSlashes(s) == s
  {
  }

  /** Normalising a concatenation normalises each part. */
  lemma ForwardSlashesAppend(s: string, t: string)
    ensures ToForwardSlashes(s + t) == ToForwardSlashes(s) + ToForwardSlashes(t)
  {
    var l, r := ToForwardSlashes(s + t), ToForwardSlashes(s) + ToForwardSlashes(t);
    assert |l| == |r|;
    forall i | 0 <= i < |l| ensures l[i] == r[i] {
      if i >= |s| {
        assert (s + t)[i] == t[i - |s|];
      }
    }
  }

  /**
   * The remote path is `prefix/rel` when the prefix is non-empty and `rel` otherwise, each
   * part with its backslashes turned into slashes, and no backslash is left in it.
   */
  lemma RemotePathShape(prefix: string, rel: string)
    ensures '\\' !in RemotePath(prefix, rel)
    ensures prefix == "" ==> RemotePath(prefix, rel) == ToForwardSlashes(rel)
    ensures prefix != "" ==> RemotePath(prefix, rel) == ToForwardSlashes(prefix) + "/" + ToForwardSlashes(rel)
    ensures '\\' !in prefix && '\\' !in rel ==>
      RemotePath(prefix, rel) == if prefix != "" then prefix + "/" + rel else rel
  {
    var joined := if prefix != "" then prefix + "/" + rel else rel;
    ForwardSlashesOnly(joined);
    if prefix != "" {
      ForwardSlashesAppend(prefix + "/", rel);
      ForwardSlashesAppend(prefix, "/");
      assert ToForwardSlashes("/") == "/";
      assert joined == prefix + "/" + rel;
    }
  }

  /** The regular files of the walk are exactly its entries that are files. */
  lemma RegularFilesOnly(walk: seq<WalkEntry>)
    ensures forall e :: e in RegularFiles(walk) <==> e in walk && e.isFile
  {
    Seqs.FilterMembers(walk, IsRegularFile);
  }

  /**
   * Each regular-file entry of the walk is kept once, in walk order: the j-th kept entry is
   * the walk's entry at `ps[j]`, a file; the positions strictly increase; and every index
   * of a file entry is among them.
   */
  lemma RegularFilesInWalkOrder(walk: seq<WalkEntry>)
    ensures var ps, fs := Seqs.FilterPositions(walk, IsRegularFile), RegularFiles(walk);
      && |ps| == |fs|
      && (forall j :: 0 <= j < |ps| ==> ps[j] < |walk| && walk[ps[j]].isFile && fs[j] == walk[ps[j]])
      && (forall j, k :: 0 <= j < k < |ps| ==> ps[j] < ps[k])
      && (forall i :: 0 <= i < |walk| && walk[i].isFile ==> i in ps)
  {
    Seqs.FilterInOrder(walk, IsRegularFile);
  }

  /** The Windows-style relative path `sub\\b.txt` is normalised to `sub/b.txt`. */
  lemma ForwardSlashesExample()
    ensures ToForwardSlashes("sub\\b.txt") == "sub/b.txt"
  {
    var s := "sub\\b.txt";
    var r := ToForwardSlashes(s);
    assert s[0] == 's' && s[1] == 'u' && s[2] == 'b' && s[3] == '\\' && s[4] == 'b';
    assert s[5] == '.' && s[6] == 't' && s[7] == 'x' && s[8] == 't';
    assert r[0] == 's' && r[1] == 'u' && r[2] == 'b' && r[3] == '/' && r[4] == 'b';
    assert r[5] == '.' && r[6] == 't' && r[7] == 'x' && r[8] == 't';
  }

  /** Under the prefix "mcp", `a.txt` and `sub\\b.txt` become `mcp/a.txt` and `mcp/sub/b.txt`. */
  lemma RemotePathExample()
    ensures RemotePath("mcp", "a.txt") == "mcp/a.txt"
    ensures RemotePath("mcp", "sub\\b.txt") == "mcp/sub/b.txt"
  {
    RemotePathShape("mcp", "a.txt");
    RemotePathShape("mcp", "sub\\b.txt");
    ForwardSlashesOnly("mcp");
    ForwardSlashesExample();
  }

  /**
   * One dict per regular file, in walk order and none for anything else: the j-th dict
   * has the j-th file's remote path and text, tagged "utf-8".
   */
  lemma {:induction false} RequestsMatchRegularFiles(walk: seq<WalkEntry>, prefix: string)
    requires Readable(walk)
    ensures var rs, fs := Requests(walk, prefix), RegularFiles(walk);
      && |rs| == |fs|
      && forall j :: 0 <= j < |rs| ==>
           fs[j].text.Some?
           && rs[j] == FileSpec(Some(RemotePath(prefix, fs[j].rel)), Some(fs[j].text.value), Some("utf-8"))
  {
    if walk != [] {
      var init := walk[..|walk| - 1];
      assert Readable(init) by {
        forall i | 0 <= i < |init| && init[i].isFile ensures init[i].text.Some? {
          assert init[i] == walk[i];
        }
      }
      RequestsMatchRegularFiles(init, prefix);
    }
  }

  /**
   * `preparar_archivos_desde_directorio` over the walk `walk`: None when reading some
   * regular file raises (the exception escapes the helper), otherwise the dicts.
   */
  method PrepareFromDirectory(walk: seq<WalkEntry>, prefix: string := "") returns (files: Option<seq<FileSpec>>)
    ensures files.Some? <==> Readable(walk)
    ensures files.Some? ==> files.value == Requests(walk, prefix)
  {
    var archivos: seq<FileSpec> := [];
    for i := 0 to |walk|
      invariant Readable(walk[..i])
      invariant archivos == Requests(walk[..i], prefix)
    {
      var item := walk[i];
      assert walk[..i + 1] == walk[..i] + [item];
      if item.isFile {
        var remotePath := RemotePath(prefix, item.rel);
        if item.text.None? {
          return None;
        }
        archivos := archivos + [FileSpec(Some(remotePath), Some(item.text.value), Some(DefaultEncoding))];
      }
    }
    assert walk[..|walk|] == walk;
    return Some(archivos);
  }

  /**
   * A file taken from the directory reaches the uploader with a path and a content, is
   * UTF-8 encoded and, when a PUT is sent, the payload's content decodes (base 64, then
   * UTF-8) to exactly the file's text.
   */
  lemma DirectoryUploadRoundTrip(walk: seq<WalkEntry>, prefix: string, j: nat, reply: Reply, baseUrl: string,
                                 message: string, branch: string, encodeText: TextCodec)
    requires Readable(walk) && j < |Requests(walk, prefix)|
    requires forall s :: encodeText("utf-8", s) == Some(Utf8.Encode(s))
    ensures var f := Requests(walk, prefix)[j];
      var a := TryUpload(f, reply, baseUrl, message, branch, encodeText);
      && a.sent != []
      && (|a.sent| == 2 ==>
            && "content" in a.sent[1].data
            && Base64.Decode(a.sent[1].data["content"]).Some?
            && Utf8.Decode(Base64.Decode(a.sent[1].data["content"]).value) == Some(f.content.value))
  {
    RequestsMatchRegularFiles(walk, prefix);
    var f := Requests(walk, prefix)[j];
    var text := f.content.value;
    assert !IsBase64Tag("utf-8") by {
      assert |Lower("utf-8")| == 5;
    }
    EncodeContentRoundTrip(text, "utf-8", encodeText);
    Utf8.DecodeEncode(text);
    AttemptRequests(f, reply, baseUrl, message, branch, encodeText);
    if |TryUpload(f, reply, baseUrl, message, branch, encodeText).sent| == 2 {
      PutPayload(f, reply, baseUrl, message, branch, encodeText);
    }
  }
}
