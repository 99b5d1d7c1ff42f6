# Clara: a verified model of the WhatsApp assistant's core

Clara is a Spring Boot WhatsApp assistant for SESI Bahia. Twilio posts each
incoming WhatsApp message to a webhook. A text message is routed by a keyword
cascade to a fixed reply, or answered by retrieval-augmented generation over
the indexed SESI Word documents. An attachment is checked, downloaded and
mailed to the department it belongs to. Every reply is cut into WhatsApp
messages of at most 1600 characters before it is sent, as far as the
splitter manages: a sentence over 3197 characters still yields an over-long
part, and Java counts characters in UTF-16 units (see "## Left out").

This project models the logic around the I/O and proves its properties:

- `whatsapp_webhook.dfy` (`WhatsAppWebhook`) models the webhook controller.
  It covers the media-or-text routing of `handleWhatsAppMessage` and the two
  splitters, `splitMessageNaturally` and `splitLongParagraph`.
  - The splitters are methods with the controller's loops. Each loop is proved
    against a fold (`PackParagraphs`, `PackSentences`) that performs the same
    step on an accumulator.
  - The lemmas about the folds state the length bound, the preservation of
    the text and its order, and the run structure of sentence parts.
- `message_processing.dfy` (`MessageProcessing`) models
  `MessageProcessingService`: normalization, the ordered rule cascade with its
  token-count guards, the time-of-day greeting and `getFirstName`.
- `rag_service.dfy` (`RagService`) models `RAGService.answerWithContext`.
  - The search and the chat model are oracles passed in as functions.
  - The context block, the prompt template and the fallbacks are written out.
- `document_indexing.dfy` (`DocumentIndexing`) models
  `DocumentIndexingService`.
  - It covers the recursive Word-file walk, the keyword category detection and
    the metadata enrichment.
  - `indexAllDocuments` and `indexDocumentsOnStartup` are methods of a class
    that holds the vector store.
- `document_handler.dfy` (`DocumentHandler`) models `DocumentHandlerService`.
  It covers the media-type tests, the size-capped download loop and
  `processDocument`'s error-recovering flow.
- `vector_store.dfy` (`VectorStore`) holds the Spring AI document values. The
  store is a class whose `batches` field logs every `add` call.
- `java_lang.dfy` (`JavaLang`) writes out the behaviour of the Java library
  calls the code relies on.
  - `String.trim` strips every character at or below U+0020.
  - `toLowerCase` lower-cases ASCII and Latin-1 capitals.
  - `split` with a literal separator or with the sentence pattern
    `(?<=[.!?])\s+` drops trailing empty strings. It returns the whole string
    when nothing matches.
  - `matches(".*(a|b|...).*")` holds exactly when the string has no line
    terminator and contains one of the alternatives, because `.` matches no
    line terminator.
  - `String.join` and `Collectors.joining` are written out.
  - `Integer.parseInt` accepts an optional sign, ASCII digits and the 32-bit
    range.

A Java `null` is `None` of `Option`. The clock, the HTTP responses, the mail
server, the text extractor, the splitter, the search and the chat model are
parameters.

## Model

| member | source | states |
|---|---|---|
| JavaLang.ToLowerIdempotent | src/main/java/com/maviniciusdev/clara/service/DocumentIndexingService.java:103 | lower-casing an already lower-cased string changes nothing |
| JavaLang.TrimEmptyIffBlank | src/main/java/com/maviniciusdev/clara/service/MessageProcessingService.java:156 | `trim()` gives the empty string exactly when every character is at or below U+0020 |
| JavaLang.TrimBlankSuffix | src/main/java/com/maviniciusdev/clara/controller/WhatsAppWebhookController.java:180 | appending blank characters, such as the trailing `"\n\n"`, does not change what `trim()` returns |
| JavaLang.VisibleTrim | src/main/java/com/maviniciusdev/clara/controller/WhatsAppWebhookController.java:168 | `trim()` removes only characters at or below U+0020 |
| JavaLang.DropTrailingEmpty | src/main/java/com/maviniciusdev/clara/controller/WhatsAppWebhookController.java:157 | `split` keeps a prefix of the raw pieces, everything it drops is empty, and its last piece is non-empty |
| JavaLang.VisibleSplit | src/main/java/com/maviniciusdev/clara/controller/WhatsAppWebhookController.java:157 | splitting on a blank separator such as `"\n\n"` loses no character above U+0020 and keeps their order |
| JavaLang.VisibleSentenceSplit | src/main/java/com/maviniciusdev/clara/controller/WhatsAppWebhookController.java:207 | splitting with `(?<=[.!?])\s+` loses no character above U+0020 and keeps their order |
| JavaLang.SentenceSplitNonEmpty | src/main/java/com/maviniciusdev/clara/controller/WhatsAppWebhookController.java:207 | every sentence of a non-empty paragraph is non-empty |
| JavaLang.SplitFirstToken | src/main/java/com/maviniciusdev/clara/service/MessageProcessingService.java:160-161 | the first token of `split(" ")` is the longest prefix free of spaces, ending at a space or at the end |
| JavaLang.JoinLength | src/main/java/com/maviniciusdev/clara/service/RAGService.java:94 | joining n strings inserts exactly n - 1 separators |
| JavaLang.JoinSnoc | src/main/java/com/maviniciusdev/clara/service/RAGService.java:94 | one more joined element adds one separator followed by that element at the end |
| JavaLang.ParsedIsNotBlank | src/main/java/com/maviniciusdev/clara/controller/WhatsAppWebhookController.java:46-48 | a string `Integer.parseInt` accepts is never blank |
| WhatsAppWebhook.SplitLongParagraph | src/main/java/com/maviniciusdev/clara/controller/WhatsAppWebhookController.java:203-243 | the loop returns what the sentence fold gives; when no sentence exceeds 3197 characters, every part has at most 1600 |
| WhatsAppWebhook.SplitMessageNaturally | src/main/java/com/maviniciusdev/clara/controller/WhatsAppWebhookController.java:148-198 | the loop returns what the paragraph fold gives; a message of at most 1600 characters is sent as itself (untrimmed); every part has at most 1600 characters whenever each force-broken sentence has at most 3197 |
| WhatsAppWebhook.PackSentencesFit | src/main/java/com/maviniciusdev/clara/controller/WhatsAppWebhookController.java:210-235 | the sentence loop keeps every emitted part and the current part within 1600 characters while no sentence exceeds 3197 |
| WhatsAppWebhook.LongParagraphPartsFit | src/main/java/com/maviniciusdev/clara/controller/WhatsAppWebhookController.java:213-227 | `splitLongParagraph` emits only parts of at most 1600 characters when no sentence exceeds 3197 |
| WhatsAppWebhook.ForcedBreakPart | src/main/java/com/maviniciusdev/clara/controller/WhatsAppWebhookController.java:222-225 | a sentence over 1600 characters closes the current part, emits its first 1597 characters plus "..." as a part of exactly 1600, and continues with the rest of the sentence |
| WhatsAppWebhook.FlushParagraphFits | src/main/java/com/maviniciusdev/clara/controller/WhatsAppWebhookController.java:193-195 | the final flush fits: the current part is at most 1600 characters, or 1600 plus the trailing `"\n\n"` that `trim` removes |
| WhatsAppWebhook.PackParagraphsFit | src/main/java/com/maviniciusdev/clara/controller/WhatsAppWebhookController.java:160-190 | when the sentence parts of every long paragraph fit, the paragraph loop keeps every emitted part within 1600 characters, and the current part within 1600 once trimmed |
| WhatsAppWebhook.NaturalPartsFit | src/main/java/com/maviniciusdev/clara/controller/WhatsAppWebhookController.java:164-195 | every part `splitMessageNaturally` emits has at most 1600 characters when each force-broken sentence has at most 3197 |
| WhatsAppWebhook.SentenceStepShown | src/main/java/com/maviniciusdev/clara/controller/WhatsAppWebhookController.java:213-234 | one sentence that needs no forced break adds exactly its visible text, after what was there |
| WhatsAppWebhook.PackSentencesShown | src/main/java/com/maviniciusdev/clara/controller/WhatsAppWebhookController.java:210-235 | the sentence loop appends the sentences' visible text in order, when none is force-broken |
| WhatsAppWebhook.LongParagraphKeepsText | src/main/java/com/maviniciusdev/clara/controller/WhatsAppWebhookController.java:207-240 | without forced breaks, the parts of a long paragraph hold its visible text in order |
| WhatsAppWebhook.ParagraphStepShown | src/main/java/com/maviniciusdev/clara/controller/WhatsAppWebhookController.java:164-189 | when a long paragraph has no sentence over 1600 characters, one paragraph adds exactly its visible text after what was there, also when it is cut into sentence parts at its own position after the flush |
| WhatsAppWebhook.PackParagraphsShown | src/main/java/com/maviniciusdev/clara/controller/WhatsAppWebhookController.java:160-190 | when no long paragraph has a sentence over 1600 characters, the paragraph loop appends the paragraphs' visible text in order |
| WhatsAppWebhook.DoubleSeparatorAfterRestart | src/main/java/com/maviniciusdev/clara/controller/WhatsAppWebhookController.java:164-189 | a paragraph that restarts the current part gets its `"\n\n"` and then a second `"\n\n"` before the next paragraph, so the part holds four line breaks between them |
| WhatsAppWebhook.NaturalPartsKeepText | src/main/java/com/maviniciusdev/clara/controller/WhatsAppWebhookController.java:157-195 | nothing is lost or reordered: read in order, the parts hold exactly the message's characters above U+0020, when no sentence is force-broken |
| WhatsAppWebhook.PackSentencesRuns | src/main/java/com/maviniciusdev/clara/controller/WhatsAppWebhookController.java:210-240 | for non-empty sentences of at most 1600 characters, the sentence loop cuts what it reads into consecutive non-empty runs, each part being its run's trimmed space-join |
| WhatsAppWebhook.LongParagraphRuns | src/main/java/com/maviniciusdev/clara/controller/WhatsAppWebhookController.java:207-240 | without forced breaks, each part of a long paragraph is the trimmed space-join of a run of consecutive sentences, and the runs cover all sentences in order |
| WhatsAppWebhook.UnbrokenMessageJustOverLimit | src/main/java/com/maviniciusdev/clara/controller/WhatsAppWebhookController.java:222-225 | a 1601-character message with no `"\n\n"` and no sentence break becomes the first 1597 characters plus "...", then the trimmed last four characters |
| WhatsAppWebhook.OneForcedBreakIsNotEnough | src/main/java/com/maviniciusdev/clara/controller/WhatsAppWebhookController.java:222-227 | a 3198-character sentence gives a second part of 1601 characters, because the remainder is not checked again |
| WhatsAppWebhook.MediaPathIff | src/main/java/com/maviniciusdev/clara/controller/WhatsAppWebhookController.java:46-48 | the media path is taken exactly when `NumMedia` is present and parses to a positive count; the request fails exactly when `NumMedia` is non-blank and `parseInt` refuses it |
| WhatsAppWebhook.PaddedCountIsRejected | src/main/java/com/maviniciusdev/clara/controller/WhatsAppWebhookController.java:46-48 | `NumMedia = " 1"` passes the blank test but is refused by `parseInt`, so the request fails |
| WhatsAppWebhook.HandleWhatsAppMessage | src/main/java/com/maviniciusdev/clara/controller/WhatsAppWebhookController.java:35-68 | status 500 exactly when the media test throws, and then nothing is sent; otherwise status 200 |
| WhatsAppWebhook.RepliesArriveWhole | src/main/java/com/maviniciusdev/clara/controller/WhatsAppWebhookController.java:51-60 | on either path the messages sent are the natural parts of the reply; they hold its visible text in order when no sentence is force-broken, and each fits when every force-broken sentence has at most 3197 characters |
| WhatsAppWebhook.UnrecognisedTextGoesToRetrieval | src/main/java/com/maviniciusdev/clara/controller/WhatsAppWebhookController.java:58-60 | a text message no rule recognises is answered with the parts of the retrieval answer to the body as received |
| WhatsAppWebhook.ErrorRepliesSentWhole | src/main/java/com/maviniciusdev/clara/controller/WhatsAppWebhookController.java:151-154 | the fixed fallback and error replies are each sent as one message, unchanged |
| MessageProcessing.FirstFiring | src/main/java/com/maviniciusdev/clara/service/MessageProcessingService.java:26-135 | the position of a rule that fires with no earlier rule firing, or none when no rule fires |
| MessageProcessing.Classify | src/main/java/com/maviniciusdev/clara/service/MessageProcessingService.java:26-135 | no intent exactly when no rule fires; otherwise the intent of the first rule that fires |
| MessageProcessing.TimeBasedGreeting | src/main/java/com/maviniciusdev/clara/service/MessageProcessingService.java:143-153 | "Bom dia" exactly before 12h, "Boa noite" exactly from 18h on, "Boa tarde" otherwise |
| MessageProcessing.FirstName | src/main/java/com/maviniciusdev/clara/service/MessageProcessingService.java:155-162 | none exactly for a missing or blank name; otherwise the first `" "`-token of the trimmed name, a non-empty prefix without spaces that ends at a space or at the end |
| MessageProcessing.ProcessMessage | src/main/java/com/maviniciusdev/clara/service/MessageProcessingService.java:140 | when no rule fires, the reply is the retrieval answer to the original, un-normalized body |
| MessageProcessing.RoutingIgnoresCaseAndBlanks | src/main/java/com/maviniciusdev/clara/service/MessageProcessingService.java:21 | two bodies with the same lower-cased, trimmed form that fire a rule get the same reply |
| MessageProcessing.MultiLineGoesToAnswer | src/main/java/com/maviniciusdev/clara/service/MessageProcessingService.java:26-140 | a normalized body holding a line terminator matches no `.*(...).*` pattern and goes to retrieval |
| MessageProcessing.AttendantBeforeDepartments | src/main/java/com/maviniciusdev/clara/service/MessageProcessingService.java:43-50 | once the greeting does not fire, an attendant keyword wins over every department keyword |
| MessageProcessing.GreetingIsShort | src/main/java/com/maviniciusdev/clara/service/MessageProcessingService.java:26-27 | a greeting needs a greeting keyword and at most three `" "`-tokens |
| MessageProcessing.RuleOfIntent | src/main/java/com/maviniciusdev/clara/service/MessageProcessingService.java:26-135 | no two rules of the cascade lead to the same intent |
| MessageProcessing.AcknowledgementIsShort | src/main/java/com/maviniciusdev/clara/service/MessageProcessingService.java:132-133 | an acknowledgement needs one of its keywords, at most two tokens, and no earlier rule firing |
| MessageProcessing.GreetingMentionsName | src/main/java/com/maviniciusdev/clara/service/MessageProcessingService.java:32-37 | the greeting reply starts with the time greeting, then " <first name>!" when a first name exists and "!" when it does not |
| RagService.AnswerWithContext | src/main/java/com/maviniciusdev/clara/service/RAGService.java:71-121 | a prompt is sent only with the constant system prompt; when none is sent, the reply is the no-documents reply or the apology |
| RagService.TemplateMatchesSource | src/main/java/com/maviniciusdev/clara/service/RAGService.java:58-69 | the template, written back, is the text block with `{context}` and `{question}` in place |
| RagService.UserPromptSubstitutes | src/main/java/com/maviniciusdev/clara/service/RAGService.java:99-103 | the user prompt is the template with context and question substituted verbatim, and holds both |
| RagService.ContextLength | src/main/java/com/maviniciusdev/clara/service/RAGService.java:88-94 | n hits give the n entries and exactly n - 1 separators `"\n\n---\n\n"` |
| RagService.ContextInResultOrder | src/main/java/com/maviniciusdev/clara/service/RAGService.java:88-94 | one more hit appends a separator and its entry at the end |
| RagService.SingleHitContext | src/main/java/com/maviniciusdev/clara/service/RAGService.java:89-93 | a single hit's context is its entry alone, with "null" for a missing source |
| RagService.OnlyThatSearchMatters | src/main/java/com/maviniciusdev/clara/service/RAGService.java:74-78 | the answer depends on the search only through the request for the question with top-k 4 and threshold 0.6 |
| RagService.NoHitsNeverGenerates | src/main/java/com/maviniciusdev/clara/service/RAGService.java:80-85 | no hits give the fixed reply, and the model is never consulted |
| RagService.HitsAnswered | src/main/java/com/maviniciusdev/clara/service/RAGService.java:99-114 | with hits, the model gets the constant system prompt and the filled template; its content is returned unmodified, and a failure gives the apology |
| RagService.SearchFailureApologises | src/main/java/com/maviniciusdev/clara/service/RAGService.java:116-120 | a failing search gives the apology, and the model is not consulted |
| VectorStore.Store.Add | src/main/java/com/maviniciusdev/clara/service/DocumentIndexingService.java:73 | one `add` call appends exactly its batch to the store's log |
| DocumentIndexing.FindDocxFiles | src/main/java/com/maviniciusdev/clara/service/DocumentIndexingService.java:85-100 | the recursive walk returns the Word files the listing order gives, recursing into every directory |
| DocumentIndexing.FoundAmongIsFilter | src/main/java/com/maviniciusdev/clara/service/DocumentIndexingService.java:88-97 | the files the first k listing entries contribute are the matching plain files among their descendants, in pre-order |
| DocumentIndexing.FoundIsFilter | src/main/java/com/maviniciusdev/clara/service/DocumentIndexingService.java:85-100 | the walk equals filtering the pre-order of the tree by the name test |
| DocumentIndexing.FindsExactlyWordFiles | src/main/java/com/maviniciusdev/clara/service/DocumentIndexingService.java:85-106 | `findDocxFiles` returns exactly the non-directory entries of the tree that pass `isDocxFile`, in walk order; an unlistable directory contributes nothing |
| DocumentIndexing.LockFilesSkipped | src/main/java/com/maviniciusdev/clara/service/DocumentIndexingService.java:102-106 | a name starting with `~$` is never a Word file |
| DocumentIndexing.DocxTestIgnoresCase | src/main/java/com/maviniciusdev/clara/service/DocumentIndexingService.java:103 | the Word-file test gives the same answer on the lower-cased name |
| DocumentIndexing.FirstKeywordFirstMatch | src/main/java/com/maviniciusdev/clara/service/DocumentIndexingService.java:152-166 | no category exactly when no keyword occurs; otherwise the category of the first rule whose keyword occurs |
| DocumentIndexing.NameOnlyAddsModelsAndViva | src/main/java/com/maviniciusdev/clara/service/DocumentIndexingService.java:151-169 | since the name ends the path, the name tests for pgr, pcmso and exame never fire; only m1/modelo (PROCESSOS) and viva (PRODUTOS) add anything |
| DocumentIndexing.CategoryIgnoresCase | src/main/java/com/maviniciusdev/clara/service/DocumentIndexingService.java:152-161 | detection gives the same category on a lower-cased path and name |
| DocumentIndexing.PathBeatsName | src/main/java/com/maviniciusdev/clara/service/DocumentIndexingService.java:154-155 | a path with "pcmso" and no "pgr" is PCMSO, whatever the name |
| DocumentIndexing.DefaultIsGeral | src/main/java/com/maviniciusdev/clara/service/DocumentIndexingService.java:168 | without any keyword in the path or the name, the category is GERAL |
| DocumentIndexing.EnrichSetsProvenance | src/main/java/com/maviniciusdev/clara/service/DocumentIndexingService.java:125-132 | a document gains `source`, `category`, `path` and `indexed_at`; its content and its other keys are kept |
| DocumentIndexing.EnrichAll | src/main/java/com/maviniciusdev/clara/service/DocumentIndexingService.java:123-133 | each document is replaced, in place, by its enrichment with the file's category and that step's clock reading |
| DocumentIndexing.LoadDocxFile | src/main/java/com/maviniciusdev/clara/service/DocumentIndexingService.java:108-149 | the loop returns the file's chunks: none on an extraction failure, an empty extraction or any splitter failure, else the chunks of the enriched documents in order |
| DocumentIndexing.SplitAllStaysFailed | src/main/java/com/maviniciusdev/clara/service/DocumentIndexingService.java:139-148 | once the splitter throws on one document, the whole split fails |
| DocumentIndexing.SplitAllProvenance | src/main/java/com/maviniciusdev/clara/service/DocumentIndexingService.java:139-141 | with a metadata-keeping splitter, chunks of documents from a file name that file |
| DocumentIndexing.FileChunksProvenance | src/main/java/com/maviniciusdev/clara/service/DocumentIndexingService.java:123-143 | with a metadata-keeping splitter, every chunk of a file names that file, its path and its category |
| DocumentIndexing.FailuresGiveNoChunks | src/main/java/com/maviniciusdev/clara/service/DocumentIndexingService.java:117-120 | an extraction failure or a splitter failure gives no chunks |
| DocumentIndexing.FailingFileContributesNothing | src/main/java/com/maviniciusdev/clara/service/DocumentIndexingService.java:61-68 | a failing file contributes nothing and the files after it are still indexed |
| DocumentIndexing.AllChunksProvenance | src/main/java/com/maviniciusdev/clara/service/DocumentIndexingService.java:61-69 | with a metadata-keeping splitter, every accumulated chunk names one of the files |
| DocumentIndexing.DocumentIndexingService.IndexAllDocuments | src/main/java/com/maviniciusdev/clara/service/DocumentIndexingService.java:42-83 | the outcome is the specification's; the store gets exactly one `add`, with all chunks in discovery order, when there are any, and none otherwise |
| DocumentIndexing.DocumentIndexingService.IndexDocumentsOnStartup | src/main/java/com/maviniciusdev/clara/service/DocumentIndexingService.java:33-40 | indexes exactly when configured to; otherwise the store is untouched |
| DocumentIndexing.IndexedChunksProvenance | src/main/java/com/maviniciusdev/clara/service/DocumentIndexingService.java:53-73 | with a metadata-keeping splitter, every chunk handed to the store names a Word file of the tree, its path and its category |
| DocumentIndexing.AddOnlyWithChunks | src/main/java/com/maviniciusdev/clara/service/DocumentIndexingService.java:46-78 | the directory is missing exactly when reported, no Word file exactly when the walk finds none, and an indexed batch is the non-empty concatenation of the files' chunks |
| DocumentHandler.AcceptedTypeHasExtension | src/main/java/com/maviniciusdev/clara/service/DocumentHandlerService.java:171-181 | an accepted media type always gets a real extension, never `.bin` |
| DocumentHandler.AcceptedImageGoesToTechnicalTeam | src/main/java/com/maviniciusdev/clara/service/DocumentHandlerService.java:186-188 | the accepted image types are valid and go to "Equipe Técnica" |
| DocumentHandler.OfficeTypesSavedAsDocx | src/main/java/com/maviniciusdev/clara/service/DocumentHandlerService.java:175 | a type with "document" and no "pdf", "word" or "image", such as the xlsx MIME type, is valid, saved as `.docx` and sent to "Documentação" |
| DocumentHandler.DownloadFile | src/main/java/com/maviniciusdev/clara/service/DocumentHandlerService.java:133-163 | the loop gives the download specification's outcome; a saved file, or one left behind after a read error, never exceeds 10 MB |
| DocumentHandler.ConsumeSavedIff | src/main/java/com/maviniciusdev/clara/service/DocumentHandlerService.java:147-157 | the read loop saves exactly when every read succeeds and the total stays within 10 MB, and the file then holds the bytes in order |
| DocumentHandler.DownloadSavedIff | src/main/java/com/maviniciusdev/clara/service/DocumentHandlerService.java:133-163 | a file is saved exactly when the status is 200, every read succeeds and the body has at most 10 MB; it then holds the whole body |
| DocumentHandler.ConsumeOversize | src/main/java/com/maviniciusdev/clara/service/DocumentHandlerService.java:150-154 | once the successful reads push the running total past 10 MB, the body is cut off and leaves no file, whatever later reads would do |
| DocumentHandler.OversizeLeavesNothing | src/main/java/com/maviniciusdev/clara/service/DocumentHandlerService.java:150-154 | a download whose successful reads pass 10 MB yields no file and leaves nothing on disk, whatever later reads would do |
| DocumentHandler.ProcessDocument | src/main/java/com/maviniciusdev/clara/service/DocumentHandlerService.java:40-82 | the unsupported-type reply comes exactly for an invalid type, and a mail is attempted only after a download was requested |
| DocumentHandler.RepliesDiffer | src/main/java/com/maviniciusdev/clara/service/DocumentHandlerService.java:45-80 | the success, error and unsupported-type replies are pairwise different |
| DocumentHandler.UnsupportedTypeDoesNothing | src/main/java/com/maviniciusdev/clara/service/DocumentHandlerService.java:44-50 | an unsupported type is answered at once, with nothing downloaded, mailed or left on disk |
| DocumentHandler.ProcessDocumentReplies | src/main/java/com/maviniciusdev/clara/service/DocumentHandlerService.java:52-81 | the download of the media URL decides what follows: a mail is attempted exactly when it saved a file, with that file as attachment; a failed download (no URL, or a case `DownloadSavedIff` rules out) gives the error reply, sends no mail and leaves exactly its partial file; a refused mail gives the error reply and leaves the saved file; an accepted one names the type's department and deletes the file |
| DocumentHandler.MailedAttachmentIsBody | src/main/java/com/maviniciusdev/clara/service/DocumentHandlerService.java:196-225 | the attachment of any attempted mail is the whole downloaded body, at most 10 MB, named `doc_<timestamp><extension>`, with a real extension |

## Left out

- Twilio `Message.creator`, `HttpURLConnection` and `JavaMailSender` are oracles. The HTTP response is a parameter and the mail server is a predicate telling whether `send` succeeded. Sending the parts counts as delivery: a send failure in `sendWhatsAppMessage` is caught and only drops the remaining parts, and that is not modelled.
- Within `handleWhatsAppMessage`, the retrieval answer is the oracle `Services.answer`. `RagService.AnswerWithContext` models that service separately, over its own search and model oracles.
- The delays between parts (`TimeUnit.MILLISECONDS.sleep`) and all logging are transport timing and diagnostics, not logic.
- The `/status` endpoint, `DocumentController`, Spring wiring (`@Value`, `@EventListener`) and HTTP status codes other than 200 and 500 are out of scope. `DocumentController` is not part of this model.
- Text extraction by Tika, `TokenTextSplitter`, embedding and similarity search, and `ChatClient` are foreign library calls. They are abstract functions that may fail. The splitter is assumed to keep metadata only where a lemma says so (`SplitKeepsMetadata`).
- A `null` content returned by the chat model is not modelled; the generated content is a string.
- A failure of `vectorStore.add` is not modelled. It is caught and logged in the source and only loses the batch.
- The HTML body and the formatted date of the notification mail are omitted. The mail keeps its subject, customer, phone number, department and attachment. Creating the upload directory is left out. The file name `doc_<timestamp><extension>` is modelled, with the timestamp as a parameter.
- File-system failures other than a failed read (a failing `mkdirs`, `delete` or `FileOutputStream`) are left out. A failed read leaves the partial file behind, and the model records it.
- `handleMediaMessage`'s own catch is left out because `processDocument` catches every exception. The error reply it would send equals `ProcessingErrorReply`.
- `MediaUrl1` and `MediaContentType1` are never read by the code, so they are not modelled.
- Documents are modelled as values. `loadDocxFile` updates each document's metadata map in place; the model replaces each document with its enriched value, so aliasing between documents is not captured.
- Character counting differs from Java. A Dafny `char` is one Unicode scalar value, while Java's `length()` counts UTF-16 units, so an emoji counts 1 here and 2 in Java. To the splitters, replies with emoji are slightly shorter here than in Java.
- Lower-casing (`JavaLang.ToLower`) covers only ASCII and Latin-1 capitals. Java's `toLowerCase` covers all of Unicode and depends on the default locale.
- `JavaLang.ParseInt`: accepts only ASCII digits. Java's `parseInt` also accepts other Unicode decimal digits.
- `WhatsAppWebhook.NaturalPartsFit`: holds only when every force-broken sentence has at most 3197 characters, because `splitLongParagraph` truncates an oversized sentence once and keeps the remainder unchecked. `WhatsAppWebhook.OneForcedBreakIsNotEnough` shows the 1601-character part a 3198-character sentence produces. `WhatsAppWebhook.SplitMessageNaturally`, `WhatsAppWebhook.SplitLongParagraph`, `WhatsAppWebhook.LongParagraphPartsFit` and `WhatsAppWebhook.RepliesArriveWhole` carry the same precondition on their length bound.
- `WhatsAppWebhook.NaturalPartsKeepText`: text preservation is stated only when no sentence is force-broken. A forced break inserts "..." into the text.
- `WhatsAppWebhook.LongParagraphRuns`: the run structure is stated under the same condition.
- `WhatsAppWebhook.LongParagraphPartsFit`: the 1600-character bound is stated only when no sentence exceeds 3197 characters. A longer sentence leaves a remainder over 1600 that is never checked again.
- `WhatsAppWebhook.PackParagraphsFit`: the bound is stated only when the sentence parts of every long paragraph fit, for the same reason.
- `WhatsAppWebhook.ParagraphStepShown`: text preservation is stated only when a long paragraph has no sentence over 1600 characters. A forced break inserts "..." into the text (`WhatsAppWebhook.ForcedBreakPart`).
- `WhatsAppWebhook.PackParagraphsShown`: stated under the same condition, for the same reason.
- `WhatsAppWebhook.PackSentencesRuns`: the run structure is stated only for non-empty sentences of at most 1600 characters. A forced break cuts a sentence in two and adds "...", so its parts are not a join of whole sentences.
- The text-preservation lemmas compare only visible characters, those above U+0020. Which separators and spaces a part holds lies outside them. In particular a paragraph that restarts a part is followed by `"\n\n\n\n"` before the next paragraph (`WhatsAppWebhook.DoubleSeparatorAfterRestart`).
- A directory symbolic-link cycle cannot be written as a finite `Entry` tree, so it is not modelled. In Java the walk follows the cycle until path lookup fails on too many symbolic links; `isDirectory()` is then false and `listFiles()` null, so the walk stops there and returns the cycle's Word files many times over.
