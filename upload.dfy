/**
 * The batch upload of `subir_archivos_github`: every file dict is encoded, its current
 * revision looked up with a GET, and written with a PUT to the contents API; each
 * outcome is filed under the uploads or the errors, and one failure never stops the batch.
 *
 * The network is a script: for the i-th file, `replies[i]` says what the GET and the
 * PUT answer (or that they raise). The requests the loop issues are returned as a log.
 */
module Upload {
  import opened Wrappers
  import opened Bytes
  import Base64
  import Seqs

  /** One element of `archivos`: a dict whose keys 'path', 'content' and 'encoding' may be absent. */
  datatype FileSpec = FileSpec(path: Option<string>, content: Option<string>, encoding: Option<string>)

  /** What the GET on the file's contents URL does: raise, or answer a status and the body's "sha" field (None when the body is not JSON or has no "sha"). */
  datatype GetReply = GetRaises | GetAnswers(status: int, sha: Option<string>)

  /** What the PUT does: raise, or answer a status and a JSON body (None when `response.json()` raises). */
  datatype PutReply = PutRaises | PutAnswers(status: int, body: Option<string>)

  /** The scripted network behaviour for one file. */
  datatype Reply = Reply(get: GetReply, put: PutReply)

  /** An HTTP request the uploader issues; `data` is the JSON payload dict of a PUT. */
  datatype Request = Get(url: string) | Put(url: string, data: map<string, string>)

  /** The exception that ended a file's attempt, which `str(e)` describes. */
  datatype Fault =
    | MissingKey(key: string)      // KeyError from archivo['path'] or archivo['content']
    | EncodingFailed(tag: string)  // LookupError or UnicodeEncodeError from content.encode(tag)
    | GetFailed                    // requests.get raised
    | ShaUnavailable               // response.json()["sha"] raised after a 200
    | PutFailed                    // requests.put raised
    | BodyNotJson                  // response.json() raised on the PUT's answer

  /** An entry of `resultados` or `errores`; its "status" key is `Status()`. */
  datatype Entry =
    | Uploaded(path: string, response: string)
    | Rejected(path: string, error: string, statusCode: int)
    | Raised(path: string, fault: Fault)
  {
    function Status(): string {
      match this
      case Uploaded(_, _) => "success"
      case Rejected(_, _, _) => "error"
      case Raised(_, _) => "exception"
    }
  }

  /** The dict the uploader returns. */
  datatype Summary = Summary(
    success: bool,          // "success"
    results: seq<Entry>,    // "resultados"
    errors: seq<Entry>,     // "errores"
    totalUploaded: int,     // "total_subidos"
    totalErrors: int)       // "total_errores"

  /** Python's `str.encode(tag)`: the octets, or None when the codec is unknown or cannot encode the text. */
  type TextCodec = (string, string) -> Option<seq<Byte>>

  const DefaultMessage: string := "Subida autom\U{E1}tica de archivos"
  const DefaultBranch: string := "main"
  const DefaultEncoding: string := "utf-8"
  /** The path reported for a file dict without a 'path' key. */
  const UnknownPath: string := "desconocido"

  /** The contents-API prefix every file path is appended to. */
  function ContentsUrl(owner: string, repo: string): string {
    "https://api.github.com/repos/" + owner + "/" + repo + "/contents/"
  }

  /** `str.lower()` on the letters A-Z; no other character lowercases to a letter of "base64". */
  function Lower(s: string): (r: string)
    ensures |r| == |s|
    ensures forall i :: 0 <= i < |s| ==> r[i] == if 'A' <= s[i] <= 'Z' then (s[i] as int + 32) as char else s[i]
  {
    if s == [] then [] else Lower(s[..|s| - 1]) + [LowerChar(s[|s| - 1])]
  }

  function LowerChar(c: char): char {
    if 'A' <= c <= 'Z' then (c as int + 32) as char else c
  }

  /** The test `encoding.lower() == 'base64'`. */
  predicate IsBase64Tag(tag: string) {
    Lower(tag) == "base64"
  }

  /**
   * The "content" of the payload: the text itself when it is tagged as base 64 already,
   * otherwise the base 64 of its octets in the tagged text encoding; None when that encoding raises.
   */
  function EncodeContent(content: string, tag: string, encodeText: TextCodec): Option<string> {
    if IsBase64Tag(tag) then Some(content)
    else
      match encodeText(tag, content)
      case None => None
      case Some(octets) => Some(Base64.Encode(octets))
  }

  /** The payload dict before the revision check: message, content and branch. */
  function Payload(message: string, content: string, branch: string): map<string, string> {
    map["message" := message, "content" := content, "branch" := branch]
  }

  /** What one iteration of the loop yields: the entry it files and the requests it issued. */
  datatype Attempt = Attempt(entry: Entry, sent: seq<Request>)

  /** The specification of one iteration of the loop: the body of the `try` and its `except`. */
  function TryUpload(f: FileSpec, reply: Reply, baseUrl: string, message: string, branch: string,
                     encodeText: TextCodec): Attempt
  {
    if f.path.None? then Attempt(Raised(UnknownPath, MissingKey("path")), [])
    else
      var path := f.path.value;
      if f.content.None? then Attempt(Raised(path, MissingKey("content")), [])
      else
        var tag := f.encoding.GetOr(DefaultEncoding);
        match EncodeContent(f.content.value, tag, encodeText)
        case None => Attempt(Raised(path, EncodingFailed(tag)), [])
        case Some(encoded) =>
          var url := baseUrl + path;
          match reply.get
          case GetRaises => Attempt(Raised(path, GetFailed), [Get(url)])
          case GetAnswers(getStatus, sha) =>
            if getStatus == 200 && sha.None? then Attempt(Raised(path, ShaUnavailable), [Get(url)])
            else
              var data := Payload(message, encoded, branch);
              var data := if getStatus == 200 then data["sha" := sha.value] else data;
              var sent := [Get(url), Put(url, data)];
              match reply.put
              case PutRaises => Attempt(Raised(path, PutFailed), sent)
              case PutAnswers(status, body) =>
                if body.None? then Attempt(Raised(path, BodyNotJson), sent)
                else if status == 200 || status == 201 then Attempt(Uploaded(path, body.value), sent)
                else Attempt(Rejected(path, body.value, status), sent)
  }

  /** The attempt for every file, each from its own dict and its own reply only. */
  function Attempts(files: seq<FileSpec>, replies: seq<Reply>, baseUrl: string, message: string, branch: string,
                    encodeText: TextCodec): (r: seq<Attempt>)
    requires |replies| == |files|
    ensures |r| == |files|
  {
    seq(|files|, i requires 0 <= i < |files| => TryUpload(files[i], replies[i], baseUrl, message, branch, encodeText))
  }

  function Entries(attempts: seq<Attempt>): (r: seq<Entry>)
    ensures |r| == |attempts|
  {
    seq(|attempts|, i requires 0 <= i < |attempts| => attempts[i].entry)
  }

  /** Every request of the batch, in the order issued. */
  function Sent(attempts: seq<Attempt>): seq<Request> {
    if attempts == [] then [] else Sent(attempts[..|attempts| - 1]) + attempts[|attempts| - 1].sent
  }

  /** Whether an entry is an upload (`uploaded`) or a failure (`!uploaded`). */
  function OfKind(uploaded: bool): Entry -> bool {
    (e: Entry) => e.Uploaded? == uploaded
  }

  /** The entries of `es` that are uploads (`uploaded`) or that are not, in their order in `es`. */
  function Select(es: seq<Entry>, uploaded: bool): seq<Entry> {
    Seqs.Filter(es, OfKind(uploaded))
  }

  /** The base 64 tag is recognised in any mix of upper and lower case, and only as those six letters and digits. */
  lemma Base64TagIgnoresCase(tag: string)
    ensures IsBase64Tag(tag) <==> |tag| == 6 && forall i :: 0 <= i < 6 ==> tag[i] == "base64"[i] || tag[i] == "BASE64"[i]
  {
    var low := Lower(tag);
    if |tag| == 6 {
      if IsBase64Tag(tag) {
        forall i | 0 <= i < 6 ensures tag[i] == "base64"[i] || tag[i] == "BASE64"[i] {
          assert low[i] == "base64"[i];
        }
      }
      if forall i :: 0 <= i < 6 ==> tag[i] == "base64"[i] || tag[i] == "BASE64"[i] {
        assert forall i :: 0 <= i < 6 ==> low[i] == "base64"[i];
        assert low == "base64";
      }
    }
  }

  /**
   * The payload content: the text unchanged under a base 64 tag; otherwise the base 64
   * text that decodes back to the octets the codec produced, and nothing when the codec raises.
   */
  lemma EncodeContentRoundTrip(content: string, tag: string, encodeText: TextCodec)
    ensures IsBase64Tag(tag) ==> EncodeContent(content, tag, encodeText) == Some(content)
    ensures !IsBase64Tag(tag) ==>
      match encodeText(tag, content)
      case None => EncodeContent(content, tag, encodeText) == None
      case Some(octets) =>
        EncodeContent(content, tag, encodeText).Some?
        && Base64.Decode(EncodeContent(content, tag, encodeText).value) == Some(octets)
  {
    if !IsBase64Tag(tag) && encodeText(tag, content).Some? {
      Base64.DecodeEncode(encodeText(tag, content).value);
    }
  }

  /**
   * The requests of one attempt: none until the content is encoded, then the GET on
   * `baseUrl + path`, then the PUT on the same URL unless the GET raised or answered 200
   * without a readable sha.
   */
  lemma AttemptRequests(f: FileSpec, reply: Reply, baseUrl: string, message: string, branch: string,
                        encodeText: TextCodec)
    ensures var a := TryUpload(f, reply, baseUrl, message, branch, encodeText);
      && |a.sent| <= 2
      && (a.sent == [] <==>
            f.path.None? || f.content.None? || EncodeContent(f.content.value, f.encoding.GetOr(DefaultEncoding), encodeText).None?)
      && (a.sent != [] ==> a.sent[0] == Get(baseUrl + f.path.value))
      && (|a.sent| == 2 <==>
            a.sent != [] && reply.get.GetAnswers? && !(reply.get.status == 200 && reply.get.sha.None?))
      && (|a.sent| == 2 ==> a.sent[1].Put? && a.sent[1].url == baseUrl + f.path.value)
  {
  }

  /**
   * The PUT payload carries message, content and branch, and carries "sha" exactly when
   * the GET answered 200, with the sha that GET returned.
   */
  lemma PutPayload(f: FileSpec, reply: Reply, baseUrl: string, message: string, branch: string,
                   encodeText: TextCodec)
    requires |TryUpload(f, reply, baseUrl, message, branch, encodeText).sent| == 2
    ensures var data := TryUpload(f, reply, baseUrl, message, branch, encodeText).sent[1].data;
      && f.path.Some? && f.content.Some?
      && "message" in data && data["message"] == message
      && "branch" in data && data["branch"] == branch
      && "content" in data
      && EncodeContent(f.content.value, f.encoding.GetOr(DefaultEncoding), encodeText) == Some(data["content"])
      && ("sha" in data <==> reply.get.GetAnswers? && reply.get.status == 200)
      && ("sha" in data ==> reply.get.sha == Some(data["sha"]))
      && data.Keys <= {"message", "content", "branch", "sha"}
  {
  }

  /**
   * How a file is filed: under its own path (or "desconocido" without one); as an upload
   * exactly when the PUT answered 200 or 201 with a JSON body; as an "error" with that
   * status when it answered anything else with a JSON body; as an "exception" otherwise.
   */
  lemma AttemptClassification(f: FileSpec, reply: Reply, baseUrl: string, message: string, branch: string,
                              encodeText: TextCodec)
    ensures var a := TryUpload(f, reply, baseUrl, message, branch, encodeText);
      var answered := |a.sent| == 2 && reply.put.PutAnswers? && reply.put.body.Some?;
      && a.entry.path == f.path.GetOr(UnknownPath)
      && (a.entry.Uploaded? <==> answered && (reply.put.status == 200 || reply.put.status == 201))
      && (a.entry.Uploaded? ==> a.entry.response == reply.put.body.value && a.entry.Status() == "success")
      && (a.entry.Rejected? <==> answered && reply.put.status != 200 && reply.put.status != 201)
      && (a.entry.Rejected? ==>
            a.entry.statusCode == reply.put.status && a.entry.error == reply.put.body.value && a.entry.Status() == "error")
      && (a.entry.Raised? <==> !answered)
      && (a.entry.Raised? ==> a.entry.Status() == "exception")
  {
  }

  /** The requests of a batch are those of its parts, one after the other. */
  lemma {:induction false} SentAppend(xs: seq<Attempt>, ys: seq<Attempt>)
    ensures Sent(xs + ys) == Sent(xs) + Sent(ys)
    decreases |ys|
  {
    if ys != [] {
      var init := ys[..|ys| - 1];
      assert xs + ys == (xs + init) + [ys[|ys| - 1]];
      assert (xs + ys)[..|xs + ys| - 1] == xs + init;
      SentAppend(xs, init);
    } else {
      assert xs + ys == xs;
    }
  }

  /**
   * Whatever happened to the files before it, the i-th file is attempted: its entry is the
   * one its own dict and reply give, it is filed under the list of its kind, and its
   * requests are issued between those of the files before and after it.
   */
  lemma EveryFileAttempted(files: seq<FileSpec>, replies: seq<Reply>, baseUrl: string, message: string,
                           branch: string, encodeText: TextCodec, i: nat)
    requires |replies| == |files| && i < |files|
    ensures var attempts := Attempts(files, replies, baseUrl, message, branch, encodeText);
      var s := Summarize(Entries(attempts));
      var a := TryUpload(files[i], replies[i], baseUrl, message, branch, encodeText);
      && Entries(attempts)[i] == a.entry
      && (a.entry.Uploaded? ==> a.entry in s.results)
      && (!a.entry.Uploaded? ==> a.entry in s.errors)
      && Sent(attempts) == Sent(attempts[..i]) + a.sent + Sent(attempts[i + 1..])
  {
    var attempts := Attempts(files, replies, baseUrl, message, branch, encodeText);
    var es := Entries(attempts);
    SelectInInputOrder(es, es[i].Uploaded?);
    assert attempts == attempts[..i] + [attempts[i]] + attempts[i + 1..];
    SentAppend(attempts[..i] + [attempts[i]], attempts[i + 1..]);
    SentAppend(attempts[..i], [attempts[i]]);
    assert Sent([attempts[i]]) == Sent([]) + attempts[i].sent;
  }

  /** The summary record built from the per-file entries. */
  function Summarize(es: seq<Entry>): Summary {
    var results := Select(es, true);
    var errors := Select(es, false);
    Summary(|errors| == 0, results, errors, |results|, |errors|)
  }

  /** Every entry lands in exactly one of the two lists: their sizes add up to the batch. */
  lemma {:induction false} SelectSizes(es: seq<Entry>)
    ensures |Select(es, true)| + |Select(es, false)| == |es|
  {
    if es != [] {
      SelectSizes(es[..|es| - 1]);
    }
  }

  /** The two lists together hold exactly the batch's entries, counted with multiplicity. */
  lemma {:induction false} SelectPartition(es: seq<Entry>)
    ensures multiset(Select(es, true)) + multiset(Select(es, false)) == multiset(es)
  {
    if es != [] {
      var init := es[..|es| - 1];
      SelectPartition(init);
      assert es == init + [es[|es| - 1]];
    }
  }

  /** `Select(es, uploaded)` holds only uploads (or only failures). */
  lemma SelectKind(es: seq<Entry>, uploaded: bool)
    ensures forall e :: e in Select(es, uploaded) ==> e.Uploaded? == uploaded
  {
    Seqs.FilterMembers(es, OfKind(uploaded));
  }

  /**
   * Each list keeps input order: its j-th entry is the entry of file `ps[j]`, the
   * positions strictly increase, and every file of the matching kind has its position there.
   */
  lemma SelectInInputOrder(es: seq<Entry>, uploaded: bool)
    ensures var ps, sel := Seqs.FilterPositions(es, OfKind(uploaded)), Select(es, uploaded);
      && |ps| == |sel|
      && (forall j :: 0 <= j < |ps| ==> ps[j] < |es| && sel[j] == es[ps[j]])
      && (forall j, k :: 0 <= j < k < |ps| ==> ps[j] < ps[k])
      && (forall i :: 0 <= i < |es| && es[i].Uploaded? == uploaded ==> i in ps)
  {
    Seqs.FilterInOrder(es, OfKind(uploaded));
  }

  /** The batch succeeds exactly when every file was uploaded. */
  lemma {:induction false} SuccessIffAllUploaded(es: seq<Entry>)
    ensures Summarize(es).success <==> forall i :: 0 <= i < |es| ==> es[i].Uploaded?
  {
    if es != [] {
      var init := es[..|es| - 1];
      SuccessIffAllUploaded(init);
      SelectSizes(es);
      SelectSizes(init);
      assert forall i :: 0 <= i < |init| ==> init[i] == es[i];
    }
  }

  /**
   * `subir_archivos_github`, with the network replaced by `replies` (one per file) and the
   * requests it issues returned in `sent`. The token only enters the request headers and
   * is not modelled.
   */
  method UploadFiles(owner: string, repo: string, files: seq<FileSpec>, replies: seq<Reply>,
                     encodeText: TextCodec, message: string := DefaultMessage, branch: string := DefaultBranch)
    returns (summary: Summary, sent: seq<Request>)
    requires |replies| == |files|
    ensures var attempts := Attempts(files, replies, ContentsUrl(owner, repo), message, branch, encodeText);
      summary == Summarize(Entries(attempts)) && sent == Sent(attempts)
    ensures summary.success <==> summary.errors == []
    ensures summary.totalUploaded == |summary.results| && summary.totalErrors == |summary.errors|
    ensures summary.totalUploaded + summary.totalErrors == |files|
    ensures files == [] ==> summary == Summary(true, [], [], 0, 0) && sent == []
  {
    var baseUrl := ContentsUrl(owner, repo);
    ghost var attempts := Attempts(files, replies, baseUrl, message, branch, encodeText);
    ghost var es := Entries(attempts);
    var results: seq<Entry> := [];
    var errors: seq<Entry> := [];
    sent := [];
    var i := 0;
    while i < |files|
      invariant 0 <= i <= |files|
      invariant results == Select(es[..i], true)
      invariant errors == Select(es[..i], false)
      invariant sent == Sent(attempts[..i])
    {
      var file := files[i];
      var raised: Option<Fault> := None;
      label attempt: {
        if file.path.None? {
          raised := Some(MissingKey("path"));
          break attempt;
        }
        var path := file.path.value;
        if file.content.None? {
          raised := Some(MissingKey("content"));
          break attempt;
        }
        var tag := file.encoding.GetOr(DefaultEncoding);
        var encoded := EncodeContent(file.content.value, tag, encodeText);
        if encoded.None? {
          raised := Some(EncodingFailed(tag));
          break attempt;
        }
        var data := Payload(message, encoded.value, branch);
        var url := baseUrl + path;
        sent := sent + [Get(url)];
        var reply := replies[i];
        if reply.get.GetRaises? {
          raised := Some(GetFailed);
          break attempt;
        }
        if reply.get.status == 200 {
          if reply.get.sha.None? {
            raised := Some(ShaUnavailable);
            break attempt;
          }
          data := data["sha" := reply.get.sha.value];
        }
        sent := sent + [Put(url, data)];
        if reply.put.PutRaises? {
          raised := Some(PutFailed);
          break attempt;
        }
        if reply.put.body.None? {
          raised := Some(BodyNotJson);
          break attempt;
        }
        if reply.put.status == 200 || reply.put.status == 201 {
          results := results + [Uploaded(path, reply.put.body.value)];
        } else {
          errors := errors + [Rejected(path, reply.put.body.value, reply.put.status)];
        }
      }
      if raised.Some? {
        errors := errors + [Raised(file.path.GetOr(UnknownPath), raised.value)];
      }
      assert es[..i + 1] == es[..i] + [es[i]];
      assert attempts[..i + 1] == attempts[..i] + [attempts[i]];
      i := i + 1;
    }
    assert es[..|files|] == es && attempts[..|files|] == attempts;
    SelectSizes(es);
    summary := Summary(|errors| == 0, results, errors, |results|, |errors|);
  }
}
