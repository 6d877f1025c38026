/**
 * The HTTP endpoints of backend/app/main.py that sit on the core: the two
 * chat endpoints build a system/user prompt and go through the broker; the
 * listing endpoint turns stored keys into folder names; the upload endpoint
 * sanitises the file name into a base path and runs the PDF pipeline.
 */
module Gateway {
  import opened Wrappers
  import opened Text
  import opened Json
  import opened Faults
  import opened Streams
  import opened Broker
  import opened Docling

  // ------------------------------------------------------------ prompts

  const SummarySystem := "You are a helpful assistant that summarizes document content."
  const SummaryInstruction := "Summarize the following document content in one sentence:\n\n"
  const QuestionLead := "You are a helpful assistant. Please respond based on the following document:\n"
  const QuestionTail := "\nIf the question isn't related to the provided documents, politely inform the user that you can only answer questions about the selected documents."

  /** One chat message `{"role": role, "content": content}`. */
  function Message(role: string, content: string): Json
  {
    JObj([Member("role", JStr(role)), Member("content", JStr(content))])
  }

  /** The role and the text of a chat message, when it is one. */
  function Said(m: Json): Option<(string, string)>
  {
    if m.JObj? then
      match (Get(m.members, "role"), Get(m.members, "content"))
      case (Some(JStr(role)), Some(JStr(text))) => Some((role, text))
      case _ => None
    else None
  }

  lemma SaidMessage(role: string, content: string)
    ensures Said(Message(role, content)) == Some((role, content))
  {
    var ms := [Member("role", JStr(role)), Member("content", JStr(content))];
    assert Get(ms, "content") == Some(JStr(content));
    assert ms[..1] == [Member("role", JStr(role))];
    assert Get(ms, "role") == Some(JStr(role));
  }

  function SummaryMessages(content: string): seq<Json>
  {
    [Message("system", SummarySystem), Message("user", SummaryInstruction + content)]
  }

  function QuestionMessages(content: string, question: string): seq<Json>
  {
    [Message("system", QuestionLead + content + QuestionTail), Message("user", question)]
  }

  /** The summary prompt is a system message then a user message, and the document can
      be read back from the user message. */
  lemma SummaryPrompt(content: string)
    ensures var ms := SummaryMessages(content);
      && |ms| == 2
      && Said(ms[0]) == Some(("system", SummarySystem))
      && Said(ms[1]).Some? && Said(ms[1]).value.0 == "user"
      && Said(ms[1]).value.1[..|SummaryInstruction|] == SummaryInstruction
      && Said(ms[1]).value.1[|SummaryInstruction|..] == content
  {
    SaidMessage("system", SummarySystem);
    SaidMessage("user", SummaryInstruction + content);
    var text := SummaryInstruction + content;
    assert text[..|SummaryInstruction|] == SummaryInstruction && text[|SummaryInstruction|..] == content;
  }

  /** The question prompt is a system message that embeds the document between the two
      fixed texts, then the question itself as the user message. */
  lemma QuestionPrompt(content: string, question: string)
    ensures var ms := QuestionMessages(content, question);
      && |ms| == 2
      && Said(ms[1]) == Some(("user", question))
      && Said(ms[0]).Some? && Said(ms[0]).value.0 == "system"
      && var text := Said(ms[0]).value.1;
         && |text| == |QuestionLead| + |content| + |QuestionTail|
         && text[..|QuestionLead|] == QuestionLead
         && text[|QuestionLead|..|QuestionLead| + |content|] == content
         && text[|QuestionLead| + |content|..] == QuestionTail
  {
    var text := QuestionLead + content + QuestionTail;
    SaidMessage("system", text);
    SaidMessage("user", question);
    assert text[..|QuestionLead|] == QuestionLead;
    assert text[|QuestionLead|..|QuestionLead| + |content|] == content;
    assert text[|QuestionLead| + |content|..] == QuestionTail;
  }

  // ------------------------------------------------------------ the chat endpoints

  /** The detail of an HTTP error: a known text, or a prefix followed by `str(e)` of an
      exception whose text the model does not spell out. */
  datatype Detail = Text(text: string) | Wrapped(prefix: string, fault: Fault)

  datatype ApiResult = Ok(field: string, value: Json) | HttpError(status: nat, detail: Detail)

  /** The inner `HTTPException(400, ...)` as `str(e)` renders it inside the outer detail. */
  const SummaryNoContent := "Error generating summary: 400: No content found in selected files"
  const QuestionNoContent := "Error answering question: 400: No content found in selected files"
  const SummaryError := "Error generating summary: "
  const QuestionError := "Error answering question: "

  /** An endpoint's answer for a prompt: the reply under `field`, or a 500 wrapping the exception. */
  function Respond(field: string, errorPrefix: string, r: Reply): (a: ApiResult)
    ensures a.Ok? <==> !r.Raised?
    ensures a.Ok? ==> a == Ok(field, Returned(r))
    ensures r.Raised? ==> a == HttpError(500, Wrapped(errorPrefix, r.fault))
  {
    if r.Raised? then HttpError(500, Wrapped(errorPrefix, r.fault)) else Ok(field, Returned(r))
  }

  /** `summarize_content`: empty content is refused before anything is published, and the
      inner 400 is re-raised as a 500 by the `except`. */
  function Summarize(db: Db, cfg: Config, content: string, model: string, id: string, fuel: nat): (ApiResult, Db)
    requires Valid(db)
  {
    if content == [] then (HttpError(500, Text(SummaryNoContent)), db)
    else
      var (r, db1) := Communicate(db, cfg, RequestFor(id, model, SummaryMessages(content)), fuel);
      (Respond("summary", SummaryError, r), db1)
  }

  /** `ask_question`, the same shape with the question prompt. */
  function Ask(db: Db, cfg: Config, content: string, question: string, model: string, id: string, fuel: nat): (ApiResult, Db)
    requires Valid(db)
  {
    if content == [] then (HttpError(500, Text(QuestionNoContent)), db)
    else
      var (r, db1) := Communicate(db, cfg, RequestFor(id, model, QuestionMessages(content, question)), fuel);
      (Respond("answer", QuestionError, r), db1)
  }

  method SummarizeContent(redis: Redis, cfg: Config, content: string, model: string, id: string, fuel: nat)
    returns (a: ApiResult)
    requires Valid(redis.db)
    modifies redis
    ensures (a, redis.db) == Summarize(old(redis.db), cfg, content, model, id, fuel)
  {
    if content == [] {
      return HttpError(500, Text(SummaryNoContent));
    }
    var r := GenerateModelResponse(redis, cfg, model, SummaryMessages(content), id, fuel);
    a := Respond("summary", SummaryError, r);
  }

  method AskQuestion(redis: Redis, cfg: Config, content: string, question: string, model: string, id: string, fuel: nat)
    returns (a: ApiResult)
    requires Valid(redis.db)
    modifies redis
    ensures (a, redis.db) == Ask(old(redis.db), cfg, content, question, model, id, fuel)
  {
    if content == [] {
      return HttpError(500, Text(QuestionNoContent));
    }
    var r := GenerateModelResponse(redis, cfg, model, QuestionMessages(content, question), id, fuel);
    a := Respond("answer", QuestionError, r);
  }

  /** With content exactly one request goes out, and its prompt reads back as the two
      summary messages. */
  lemma SummarizePublishes(db: Db, cfg: Config, content: string, model: string, id: string, fuel: nat)
    requires Valid(db) && content != []
    ensures var db1 := Summarize(db, cfg, content, model, id, fuel).1;
      var entry := RequestEntry(id, model, SummaryMessages(content));
      && Entries(db1, cfg.requestStream) == Entries(db, cfg.requestStream) + [entry]
      && Decode(entry["prompt"]) == Some(JArr(SummaryMessages(content)))
  {
    GenerateAppendsOne(db, cfg, id, model, SummaryMessages(content), fuel);
    PublishRequest(db, cfg, id, model, SummaryMessages(content));
  }

  /** The same for questions. */
  lemma AskPublishes(db: Db, cfg: Config, content: string, question: string, model: string, id: string, fuel: nat)
    requires Valid(db) && content != []
    ensures var db1 := Ask(db, cfg, content, question, model, id, fuel).1;
      var entry := RequestEntry(id, model, QuestionMessages(content, question));
      && Entries(db1, cfg.requestStream) == Entries(db, cfg.requestStream) + [entry]
      && Decode(entry["prompt"]) == Some(JArr(QuestionMessages(content, question)))
  {
    GenerateAppendsOne(db, cfg, id, model, QuestionMessages(content, question), fuel);
    PublishRequest(db, cfg, id, model, QuestionMessages(content, question));
  }

  /** With no worker running, `summarize_content` answers with the timeout string as its
      summary: the request is published and nothing comes back before the deadline. */
  lemma SummarizeTimesOut(db: Db, cfg: Config, content: string, model: string, id: string, fuel: nat)
    requires Valid(db) && content != []
    requires cfg.requestStream != cfg.responseStream
    requires HasGroup(db, cfg.responseStream, cfg.responseGroup)
    requires GroupOf(db, cfg.responseStream, cfg.responseGroup).lastDelivered == |db[cfg.responseStream].entries|
    ensures Summarize(db, cfg, content, model, id, fuel).0 == Ok("summary", JStr(TimeoutMessage))
  {
    CommunicateTimesOut(db, cfg, id, model, SummaryMessages(content), fuel);
  }

  /** The same for `ask_question`, whose answer is then the timeout string. */
  lemma AskTimesOut(db: Db, cfg: Config, content: string, question: string, model: string, id: string, fuel: nat)
    requires Valid(db) && content != []
    requires cfg.requestStream != cfg.responseStream
    requires HasGroup(db, cfg.responseStream, cfg.responseGroup)
    requires GroupOf(db, cfg.responseStream, cfg.responseGroup).lastDelivered == |db[cfg.responseStream].entries|
    ensures Ask(db, cfg, content, question, model, id, fuel).0 == Ok("answer", JStr(TimeoutMessage))
  {
    CommunicateTimesOut(db, cfg, id, model, QuestionMessages(content, question), fuel);
  }

  // ------------------------------------------------------------ listing

  datatype Listing = Folders(names: set<string>) | ListFails(fault: Fault)

  /** The folder of a key: the second-to-last `/`-separated segment, when there is one. */
  function FolderOf(key: string): Option<string>
  {
    var parts := Split(key, '/');
    if |parts| < 2 then None else Some(parts[|parts| - 2])
  }

  /** `{file.split('/')[-2] for file in keys if not file.endswith('.png')}`. */
  function FolderNames(keys: seq<string>): (r: Listing)
    ensures r.ListFails? ==> r.fault == IndexError
    ensures r.Folders? <==> forall i :: 0 <= i < |keys| && !EndsWith(keys[i], ".png") ==> FolderOf(keys[i]).Some?
    ensures r.Folders? ==> forall name :: name in r.names <==>
      exists i :: 0 <= i < |keys| && !EndsWith(keys[i], ".png") && FolderOf(keys[i]) == Some(name)
  {
    if keys == [] then Folders({})
    else
      var rest := FolderNames(keys[1..]);
      assert forall i :: 1 <= i < |keys| ==> keys[i] == keys[1..][i - 1];
      if EndsWith(keys[0], ".png") then rest
      else
        match FolderOf(keys[0])
        case None => ListFails(IndexError)
        case Some(name) =>
          match rest
          case ListFails(e) => ListFails(e)
          case Folders(names) => Folders({name} + names)
  }

  /** A key has a folder exactly when it contains a `/`. */
  lemma FolderOfSlash(key: string)
    ensures FolderOf(key).Some? <==> '/' in key
  {
    if '/' in key {
      var i :| 0 <= i < |key| && key[i] == '/';
      assert key == key[..i] + ['/'] + key[i + 1..];
      SplitAround(key[..i], '/', key[i + 1..]);
    } else {
      SplitNoSeparator(key, '/');
    }
  }

  /** A key `<prefix>/<name>/<file>` lists under `name`. */
  lemma FolderOfNested(prefix: string, name: string, file: string)
    requires '/' !in name && '/' !in file
    ensures FolderOf(prefix + ['/'] + (name + ['/'] + file)) == Some(name)
  {
    SplitAround(prefix, '/', name + ['/'] + file);
    SplitAround(name, '/', file);
    SplitNoSeparator(name, '/');
    SplitNoSeparator(file, '/');
  }

  /** A markdown key of the shape `get_selected_pdf` reads, `<prefix>/<name>/extracted_data.md`,
      lists under `name`. */
  lemma ListedFolder(prefix: string, name: string)
    requires '/' !in name
    ensures FolderOf(prefix + "/" + name + "/extracted_data.md") == Some(name)
  {
    var file := "extracted_data.md";
    assert "/extracted_data.md" == ['/'] + file;
    assert prefix + "/" + name + "/extracted_data.md" == prefix + ['/'] + (name + ['/'] + file);
    FolderOfNested(prefix, name, file);
  }

  // ------------------------------------------------------------ upload

  const DoclingRoot := "pdf/docling/"

  /** `f"pdf/docling/{file_name.replace('.','').replace(' ','')}/"`: the file's folder under
      the docling root, named by the file name with every dot and every space taken out. */
  function UploadBasePath(fileName: string): (base: string)
    ensures base == DoclingRoot + RemoveChar(RemoveChar(fileName, '.'), ' ') + "/"
    ensures '.' !in base[|DoclingRoot|..] && ' ' !in base
  {
    var clean := RemoveChar(RemoveChar(fileName, '.'), ' ');
    RemoveCharKeepsAbsent(RemoveChar(fileName, '.'), '.', ' ');
    Between(DoclingRoot, clean, "/");
    DoclingRoot + clean + "/"
  }

  lemma Between(a: string, b: string, c: string)
    ensures (a + b + c)[|a|..] == b + c && (a + b + c)[|a|..|a + b + c| - |c|] == b
  {
  }

  /** The folder name keeps every character of the file name other than dots and
      spaces, as many times as it occurs there. */
  lemma UploadFolderChars(fileName: string)
    ensures var base := UploadBasePath(fileName);
      multiset(base[|DoclingRoot|..|base| - 1]) == multiset(fileName)['.' := 0][' ' := 0]
  {
    Between(DoclingRoot, RemoveChar(RemoveChar(fileName, '.'), ' '), "/");
  }

  /** The keys an upload writes list under the empty name: the base path already ends in
      `/` and both the PDF key and the markdown key add another, so the second-to-last
      segment of each is empty. */
  lemma UploadListsEmpty(fileName: string)
    requires '/' !in fileName
    ensures FolderOf(UploadBasePath(fileName) + "/" + fileName) == Some("")
    ensures FolderOf(MarkdownKey(UploadBasePath(fileName))) == Some("")
  {
    var prefix := DoclingRoot + RemoveChar(RemoveChar(fileName, '.'), ' ');
    var file := "extracted_data.md";
    assert UploadBasePath(fileName) + "/" + fileName == prefix + ['/'] + ([] + ['/'] + fileName);
    FolderOfNested(prefix, [], fileName);
    assert MarkdownKey(UploadBasePath(fileName)) == prefix + ['/'] + ([] + ['/'] + file);
    FolderOfNested(prefix, [], file);
  }

  /** Sanitising a sanitised name changes nothing. */
  lemma UploadBasePathIdempotent(fileName: string)
    ensures var clean := RemoveChar(RemoveChar(fileName, '.'), ' ');
      UploadBasePath(clean) == UploadBasePath(fileName)
  {
    var once := RemoveChar(fileName, '.');
    var clean := RemoveChar(once, ' ');
    RemoveCharKeepsAbsent(once, '.', ' ');
    RemoveCharAbsent(clean, '.');
    RemoveCharAbsent(clean, ' ');
  }

  const DownloadMessage := "Data Scraped and stored in S3 \n Click the link to Download: https://"

  /** `process_pdf_docling` after the base64 decoding and the conversion: the PDF is
      stored first, then the images and the markdown. */
  method ProcessPdfDocling(bucket: string, fileName: string, markdown: string, stem: string, items: seq<Item>)
    returns (message: string, scraped: string, s3: S3Files)
    ensures s3.bucketName == bucket && s3.basePath == UploadBasePath(fileName)
    ensures scraped == Rewrite(markdown, Tags(bucket, s3.basePath, stem, PictureCount(items)))
    ensures s3.uploads == [(s3.basePath + "/" + fileName, PdfFile)] + ImageUploads(s3.basePath, stem, items)
      + [(MarkdownKey(s3.basePath), Markdown(scraped))]
    ensures message == DownloadMessage + bucket + ".s3.amazonaws.com/" + MarkdownKey(s3.basePath)
  {
    var base := UploadBasePath(fileName);
    s3 := new S3Files(bucket, base);
    s3.UploadFile(s3.basePath + "/" + fileName, PdfFile);
    var key;
    key, scraped := PdfDoclingConverter(markdown, stem, items, s3);
    message := DownloadMessage + s3.bucketName + ".s3.amazonaws.com/" + key;
  }

  /** For an uploaded file the theorem about placeholders applies whatever the file's
      name: the base path has no space, so the links have none. */
  lemma UploadFills(parts: seq<string>, bucket: string, fileName: string, stem: string, n: nat)
    requires 1 <= |parts|
    requires AllFree(parts)
    requires ' ' !in bucket && ' ' !in stem
    ensures var h := |parts| - 1;
      var tags := Tags(bucket, UploadBasePath(fileName), stem, n);
      var m := Min(|tags|, h);
      Rewrite(Weave(parts, Repeat(h)), tags) == Weave(parts, tags[..m] + Repeat(h - m))
  {
    ConvertFills(parts, bucket, UploadBasePath(fileName), stem, n);
  }
}
