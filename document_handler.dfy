/**
 * Attachments sent over WhatsApp (`DocumentHandlerService`): which media
 * types are accepted, which extension and department a type gets, the
 * size-capped download loop, and the error-recovering flow that downloads
 * the file, mails it to the department and answers the sender.  HTTP and
 * e-mail are oracles.
 */
module DocumentHandler {
  import opened JavaLang

  /** 10 MB, `10 * 1024 * 1024`. */
  const MaxFileSize: nat := 10 * 1024 * 1024

  const UnsupportedTypeReply: string :=
    "Desculpa, " + "esse tipo de arquivo não é suportado. 😕\n\n" +
    "Aceito apenas:\n" +
    "📄 PDF, Word, Excel\n" +
    "📷 Imagens (JPG, PNG)\n\n" +
    "Pode enviar novamente no formato correto?"

  const ProcessingErrorReply: string :=
    "Ops, " + "tive um problema ao processar seu documento. 😅\n\n" +
    "Pode tentar enviar novamente ou ligar no (71) 3255-6500?"

  function SuccessReply(department: string): string {
    "Recebi seu documento! 📄\n\n" +
    "Encaminhei para: " + department + "\n" +
    "Eles vão analisar e te retornar em breve.\n\n" +
    "Precisa enviar mais alguma coisa?"
  }

  // ---------------------------------------------------------------------
  // Media types
  // ---------------------------------------------------------------------

  /** The substrings `isValidFileType` accepts, in the order it tests them. */
  const AcceptedTypeMarkers: seq<string> :=
    ["pdf", "word", "document", "excel", "spreadsheet", "image/jpeg", "image/jpg", "image/png"]

  /** `isValidFileType`: false for a missing type, else true iff one of the markers occurs. */
  predicate IsValidFileType(mediaType: Option<string>) {
    mediaType.Some? &&
    exists k | 0 <= k < |AcceptedTypeMarkers| :: Contains(mediaType.value, AcceptedTypeMarkers[k])
  }

  /** `getFileExtension`: the first matching test decides. */
  function FileExtension(mediaType: Option<string>): string {
    match mediaType
    case None => ".bin"
    case Some(t) =>
      if Contains(t, "pdf") then ".pdf"
      else if Contains(t, "word") || Contains(t, "document") then ".docx"
      else if Contains(t, "excel") || Contains(t, "spreadsheet") then ".xlsx"
      else if Contains(t, "jpeg") || Contains(t, "jpg") then ".jpg"
      else if Contains(t, "png") then ".png"
      else ".bin"
  }

  /** `identifyDepartment`: images go to the technical team, pdf and documents to documentation. */
  function IdentifyDepartment(mediaType: Option<string>): string {
    match mediaType
    case None => "Documentação"
    case Some(t) =>
      if Contains(t, "image") then "Equipe Técnica"
      else if Contains(t, "pdf") || Contains(t, "document") then "Documentação"
      else "Administrativo"
  }

  lemma ContainsLiteral(s: string, sub: string, i: nat)
    requires i + |sub| <= |s| && s[i..i + |sub|] == sub
    ensures Contains(s, sub)
  {
    assert OccursAt(s, sub, i);
  }

  /** Every accepted type gets a real extension, never ".bin". */
  lemma AcceptedTypeHasExtension(mediaType: Option<string>)
    requires IsValidFileType(mediaType)
    ensures FileExtension(mediaType) in {".pdf", ".docx", ".xlsx", ".jpg", ".png"}
  {
    var t := mediaType.value;
    var k :| 0 <= k < |AcceptedTypeMarkers| && Contains(t, AcceptedTypeMarkers[k]);
    if k == 5 {
      ContainsLiteral("image/jpeg", "jpeg", 6);
      ContainsTransitive(t, "image/jpeg", "jpeg");
    } else if k == 6 {
      ContainsLiteral("image/jpg", "jpg", 6);
      ContainsTransitive(t, "image/jpg", "jpg");
    } else if k == 7 {
      ContainsLiteral("image/png", "png", 6);
      ContainsTransitive(t, "image/png", "png");
    }
  }

  /** Every accepted image type goes to the technical team. */
  lemma AcceptedImageGoesToTechnicalTeam(mediaType: string)
    requires Contains(mediaType, "image/jpeg") || Contains(mediaType, "image/jpg") || Contains(mediaType, "image/png")
    ensures IsValidFileType(Some(mediaType))
    ensures IdentifyDepartment(Some(mediaType)) == "Equipe Técnica"
  {
    if Contains(mediaType, "image/jpeg") {
      ContainsLiteral("image/jpeg", "image", 0);
      ContainsTransitive(mediaType, "image/jpeg", "image");
      assert Contains(mediaType, AcceptedTypeMarkers[5]);
    } else if Contains(mediaType, "image/jpg") {
      ContainsLiteral("image/jpg", "image", 0);
      ContainsTransitive(mediaType, "image/jpg", "image");
      assert Contains(mediaType, AcceptedTypeMarkers[6]);
    } else {
      ContainsLiteral("image/png", "image", 0);
      ContainsTransitive(mediaType, "image/png", "image");
      assert Contains(mediaType, AcceptedTypeMarkers[7]);
    }
  }

  /**
   * Precedence of the extension and department tests: a type with "document"
   * and no "pdf", "word" or "image" (the Office Open XML types, whose names
   * contain "officedocument") is saved as ".docx" and sent to documentation,
   * also when it is a spreadsheet.
   */
  lemma OfficeTypesSavedAsDocx(mediaType: string)
    requires Contains(mediaType, "document")
    requires !Contains(mediaType, "pdf") && !Contains(mediaType, "word") && !Contains(mediaType, "image")
    ensures IsValidFileType(Some(mediaType))
    ensures FileExtension(Some(mediaType)) == ".docx"
    ensures IdentifyDepartment(Some(mediaType)) == "Documentação"
  {
    assert Contains(mediaType, AcceptedTypeMarkers[2]);
  }

  // ---------------------------------------------------------------------
  // The download loop
  // ---------------------------------------------------------------------

  /** One `in.read(buffer)`: the bytes read, or an `IOException`. */
  datatype Read = Bytes(data: seq<bv8>) | ReadFailed

  /** What the GET on the media URL yields: no connection, or a status and the reads of the body. */
  datatype HttpResponse = ConnectFailed | Response(status: int, body: seq<Read>)

  /**
   * The outcome of `downloadFileFromTwilio`: the saved file, or null, and in
   * that case whether a partial file was left in the upload directory.
   */
  datatype Download = Saved(content: seq<bv8>) | NotSaved(leftover: Option<seq<bv8>>)

  /** The read loop from the point where `written` has been written so far. */
  function Consume(body: seq<Read>, written: seq<bv8>): Download
    decreases |body|
  {
    if body == [] then Saved(written)
    else
      match body[0]
      case ReadFailed => NotSaved(Some(written))
      case Bytes(data) =>
        if |written| + |data| > MaxFileSize then NotSaved(None)
        else Consume(body[1..], written + data)
  }

  function DownloadSpec(response: HttpResponse): Download {
    match response
    case ConnectFailed => NotSaved(None)
    case Response(status, body) => if status != 200 then NotSaved(None) else Consume(body, [])
  }

  /** The byte-counting loop of `downloadFileFromTwilio`; `written` is the output file. */
  method DownloadFile(response: HttpResponse) returns (result: Download)
    ensures result == DownloadSpec(response)
    ensures result.Saved? ==> |result.content| <= MaxFileSize
    ensures result.NotSaved? && result.leftover.Some? ==> |result.leftover.value| <= MaxFileSize
  {
    if response.ConnectFailed? || response.status != 200 {
      return NotSaved(None);
    }
    var body := response.body;
    var written: seq<bv8> := [];
    var totalBytes: nat := 0;
    var i := 0;
    while i < |body|
      invariant 0 <= i <= |body|
      invariant totalBytes == |written| <= MaxFileSize
      invariant Consume(body[i..], written) == Consume(body, [])
    {
      assert body[i..][1..] == body[i + 1..];
      match body[i]
      case ReadFailed =>
        return NotSaved(Some(written));
      case Bytes(data) =>
        totalBytes := totalBytes + |data|;
        if totalBytes > MaxFileSize {
          return NotSaved(None);
        }
        written := written + data;
      i := i + 1;
    }
    assert body[i..] == [];
    result := Saved(written);
  }

  /** The bytes of the successful reads of a body, in order. */
  function BodyBytes(body: seq<Read>): seq<bv8> {
    if body == [] then [] else (if body[0].Bytes? then body[0].data else []) + BodyBytes(body[1..])
  }

  /** Every read of the body succeeded. */
  predicate AllRead(body: seq<Read>) {
    forall k | 0 <= k < |body| :: body[k].Bytes?
  }

  lemma AllReadTail(body: seq<Read>)
    requires body != []
    ensures AllRead(body) <==> body[0].Bytes? && AllRead(body[1..])
  {
    if body[0].Bytes? && AllRead(body[1..]) {
      forall k | 0 <= k < |body| ensures body[k].Bytes? {
        if k > 0 {
          assert body[k] == body[1..][k - 1];
        }
      }
    }
  }

  lemma {:induction false} ConsumeSavedIff(body: seq<Read>, written: seq<bv8>)
    requires |written| <= MaxFileSize
    ensures Consume(body, written).Saved? <==>
      AllRead(body) && |written| + |BodyBytes(body)| <= MaxFileSize
    ensures Consume(body, written).Saved? ==> Consume(body, written).content == written + BodyBytes(body)
    decreases |body|
  {
    if body != [] {
      AllReadTail(body);
      match body[0]
      case ReadFailed =>
      case Bytes(data) =>
        assert BodyBytes(body) == data + BodyBytes(body[1..]);
        if |written| + |data| <= MaxFileSize {
          ConsumeSavedIff(body[1..], written + data);
          assert written + data + BodyBytes(body[1..]) == written + BodyBytes(body);
        }
    }
  }

  /**
   * A file is saved exactly when the server answered 200, every read
   * succeeded and the body has at most 10 MB; the file then holds the whole
   * body.
   */
  lemma DownloadSavedIff(response: HttpResponse)
    ensures DownloadSpec(response).Saved? <==>
      response.Response? && response.status == 200 &&
      AllRead(response.body) && |BodyBytes(response.body)| <= MaxFileSize
    ensures DownloadSpec(response).Saved? ==> DownloadSpec(response).content == BodyBytes(response.body)
  {
    if response.Response? && response.status == 200 {
      ConsumeSavedIff(response.body, []);
      assert [] + BodyBytes(response.body) == BodyBytes(response.body);
    }
  }

  /** The first `k` reads: their bytes are those of the reads before the last one, then its own. */
  lemma BodyBytesPrefix(body: seq<Read>, k: nat)
    requires 0 < k <= |body| && body[0].Bytes?
    ensures BodyBytes(body[..k]) == body[0].data + BodyBytes(body[1..][..k - 1])
  {
    assert body[..k][1..] == body[1..][..k - 1];
  }

  /**
   * Once the reads so far have all succeeded and pushed the total past
   * 10 MB, the loop stops: whatever the later reads would have done, nothing
   * is saved and nothing is left behind.
   */
  lemma {:induction false} ConsumeOversize(body: seq<Read>, written: seq<bv8>, k: nat)
    requires |written| <= MaxFileSize
    requires k <= |body| && AllRead(body[..k])
    requires |written| + |BodyBytes(body[..k])| > MaxFileSize
    ensures Consume(body, written) == NotSaved(None)
    decreases |body|
  {
    assert body[..k][0] == body[0];
    var data := body[0].data;
    if |written| + |data| <= MaxFileSize {
      BodyBytesPrefix(body, k);
      assert |written + data| + |BodyBytes(body[1..][..k - 1])| > MaxFileSize;
      ConsumeOversize(body[1..], written + data, k - 1);
    }
  }

  /**
   * A download whose successful reads pass 10 MB is cut off and its file
   * deleted: nothing is saved and nothing is left behind, whatever follows.
   */
  lemma OversizeLeavesNothing(response: HttpResponse, k: nat)
    requires response.Response? && response.status == 200
    requires k <= |response.body| && AllRead(response.body[..k])
    requires |BodyBytes(response.body[..k])| > MaxFileSize
    ensures DownloadSpec(response) == NotSaved(None)
  {
    ConsumeOversize(response.body, [], k);
  }

  // ---------------------------------------------------------------------
  // processDocument
  // ---------------------------------------------------------------------

  /** The mail `sendEmailWithAttachment` builds (the HTML body's date is left out). */
  datatype Email = Email(subject: string, customer: string, phoneNumber: string,
                         department: string, attachmentName: string, attachment: seq<bv8>)

  /**
   * What `processDocument` did: its reply, whether it downloaded, the mail it
   * tried to send (accepted by the server or not), and any file left behind.
   */
  datatype DocumentOutcome = DocumentOutcome(reply: string, requested: bool, mailAttempt: Option<Email>,
                                             fileLeft: Option<seq<bv8>>)

  function MailFor(phoneNumber: string, profileName: Option<string>, fileName: string,
                   content: seq<bv8>, department: string): Email {
    Email("📄 Documento recebido via WhatsApp - " + (if profileName.Some? then profileName.value else "Cliente"),
          if profileName.Some? then profileName.value else "Não informado",
          phoneNumber, department, fileName, content)
  }

  /**
   * `processDocument`.  `fetch` answers the GET on the media URL, `timestamp`
   * is the clock as `yyyyMMdd_HHmmss`, and `send` says whether the mail
   * server accepted the message.
   */
  function ProcessDocument(phoneNumber: string, profileName: Option<string>, mediaUrl: Option<string>,
                           mediaType: Option<string>, timestamp: string,
                           fetch: string -> HttpResponse, send: Email -> bool): (r: DocumentOutcome)
    ensures r.reply == UnsupportedTypeReply <==> !IsValidFileType(mediaType)
    ensures r.mailAttempt.Some? ==> r.requested
  {
    if !IsValidFileType(mediaType) then DocumentOutcome(UnsupportedTypeReply, false, None, None)
    else
      RepliesDiffer(IdentifyDepartment(mediaType));
      var response := if mediaUrl.Some? then fetch(mediaUrl.value) else ConnectFailed;
      match DownloadSpec(response)
      case NotSaved(leftover) => DocumentOutcome(ProcessingErrorReply, mediaUrl.Some?, None, leftover)
      case Saved(content) =>
        var department := IdentifyDepartment(mediaType);
        var mail := MailFor(phoneNumber, profileName, "doc_" + timestamp + FileExtension(mediaType), content, department);
        if send(mail) then DocumentOutcome(SuccessReply(department), mediaUrl.Some?, Some(mail), None)
        else DocumentOutcome(ProcessingErrorReply, mediaUrl.Some?, Some(mail), Some(content))
  }

  /** The three replies are told apart by their first character. */
  lemma RepliesDiffer(department: string)
    ensures SuccessReply(department) != UnsupportedTypeReply && SuccessReply(department) != ProcessingErrorReply
    ensures ProcessingErrorReply != UnsupportedTypeReply
  {
    assert SuccessReply(department)[0] == 'R';
    assert ProcessingErrorReply[0] == 'O';
    assert UnsupportedTypeReply[0] == 'D';
  }

  /** An unsupported type is answered at once: nothing is downloaded, mailed or left on disk. */
  lemma UnsupportedTypeDoesNothing(phoneNumber: string, profileName: Option<string>, mediaUrl: Option<string>,
                                   mediaType: Option<string>, timestamp: string,
                                   fetch: string -> HttpResponse, send: Email -> bool)
    requires !IsValidFileType(mediaType)
    ensures ProcessDocument(phoneNumber, profileName, mediaUrl, mediaType, timestamp, fetch, send) ==
      DocumentOutcome(UnsupportedTypeReply, false, None, None)
  {
  }

  /**
   * The download decides what follows: a failed one gives the error reply,
   * sends no mail and leaves exactly its partial file, if any; a saved one is
   * always mailed.  A refused mail gives the error reply and leaves the saved
   * file; success names the department of the type.
   */
  lemma ProcessDocumentReplies(phoneNumber: string, profileName: Option<string>, mediaUrl: Option<string>,
                               mediaType: Option<string>, timestamp: string,
                               fetch: string -> HttpResponse, send: Email -> bool)
    requires IsValidFileType(mediaType)
    ensures var r := ProcessDocument(phoneNumber, profileName, mediaUrl, mediaType, timestamp, fetch, send);
      var d := DownloadSpec(if mediaUrl.Some? then fetch(mediaUrl.value) else ConnectFailed);
      (r.mailAttempt.Some? <==> d.Saved?) &&
      (d.NotSaved? ==> r.reply == ProcessingErrorReply && r.fileLeft == d.leftover) &&
      (d.Saved? ==> r.mailAttempt.value.attachment == d.content) &&
      (r.mailAttempt.None? ==> r.reply == ProcessingErrorReply) &&
      (r.mailAttempt.Some? && !send(r.mailAttempt.value) ==>
        r.reply == ProcessingErrorReply && r.fileLeft == Some(r.mailAttempt.value.attachment)) &&
      (r.mailAttempt.Some? && send(r.mailAttempt.value) ==>
        r.reply == SuccessReply(IdentifyDepartment(mediaType)) &&
        r.mailAttempt.value.department == IdentifyDepartment(mediaType) && r.fileLeft.None?)
  {
    RepliesDiffer(IdentifyDepartment(mediaType));
  }

  /** An attempted mail's attachment is the whole downloaded body, named after the type's extension. */
  lemma MailedAttachmentIsBody(phoneNumber: string, profileName: Option<string>, mediaUrl: Option<string>,
                               mediaType: Option<string>, timestamp: string,
                               fetch: string -> HttpResponse, send: Email -> bool)
    requires ProcessDocument(phoneNumber, profileName, mediaUrl, mediaType, timestamp, fetch, send).mailAttempt.Some?
    ensures var m := ProcessDocument(phoneNumber, profileName, mediaUrl, mediaType, timestamp, fetch, send).mailAttempt.value;
      mediaUrl.Some? &&
      m.attachment == BodyBytes(fetch(mediaUrl.value).body) && |m.attachment| <= MaxFileSize &&
      m.attachmentName == "doc_" + timestamp + FileExtension(mediaType) &&
      FileExtension(mediaType) != ".bin"
  {
    AcceptedTypeHasExtension(mediaType);
    DownloadSavedIff(fetch(mediaUrl.value));
  }
}
