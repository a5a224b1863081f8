/**
 * The chat widget: a floating panel that, once opened, greets the user, sends
 * each message (with an optional attached resume inlined into the prompt) to a
 * chat session and streams the reply into the message list.
 */
module ChatbotWidget {
  import opened Text
  import opened Browser
  import opened Types
  import Extraction
  import Utf8

  datatype Sender = User | Bot

  /** `Message`; `isError` is absent (falsy) unless set. */
  datatype Message = Message(sender: Sender, text: string, isError: bool)

  const Greeting := Message(Bot, "Hey there \U{1F44B}! I\U{2019}m your HireLens Assistant. I can help with resumes, hiring insights, and smart job matching. How can I assist you today?", false)
  const FileErrorMessage := Message(Bot, "Sorry, I couldn't read that file. Please try another one.", true)
  const NotInitializedMessage := Message(Bot, "Chat is not initialized. Please close and reopen the chat.", true)
  const ConnectionErrorMessage := Message(Bot, "Oops, I'm having trouble connecting right now. Please try again in a moment.", true)

  // ---------------------------------------------------------------------------
  // The attachment
  // ---------------------------------------------------------------------------

  /** What a template literal makes of an `ArrayBuffer`. */
  const ArrayBufferString := "[object ArrayBuffer]"

  /**
   * The widget's copy of `extractTextFromFile` as written: its plain-text branch
   * resolves the reader's `ArrayBuffer` itself, which the prompt template then
   * turns into "[object ArrayBuffer]".
   */
  function AttachmentTextAsWritten(name: string, read: ReadResult, libs: Libraries): Result<string, Extraction.ExtractError>
  {
    if read.Loaded? && read.result.Some? && Extraction.Route(name) == Extraction.Utf8Format then Success(ArrayBufferString)
    else Extraction.ExtractText(Extraction.ChatbotCopy, name, read, libs)
  }

  /**
   * As written, every attached text file reaches the prompt as
   * "[object ArrayBuffer]", whatever it holds; decoded, as the dashboards do,
   * it reaches the prompt as its text.
   */
  lemma AttachedTextIsLost(stem: string, s: string, libs: Libraries)
    requires s == [] || s[0] != Utf8.ByteOrderMark
    ensures var read := Loaded(Some(Utf8.Encode(s)));
      && AttachmentTextAsWritten(stem + ".txt", read, libs) == Success(ArrayBufferString)
      && Extraction.ExtractText(Extraction.ChatbotCopy, stem + ".txt", read, libs) == Success(s)
  {
    Extraction.RouteBySuffix(stem, ".txt");
    Extraction.ExtractTextOutcomes(Extraction.ChatbotCopy, stem + ".txt", s, libs);
  }

  /** Outside the plain-text branch the two agree. */
  lemma AsWrittenAgreesElsewhere(name: string, read: ReadResult, libs: Libraries)
    requires Extraction.Route(name) != Extraction.Utf8Format || !read.Loaded? || read.result.None?
    ensures AttachmentTextAsWritten(name, read, libs) == Extraction.ExtractText(Extraction.ChatbotCopy, name, read, libs)
  {
  }

  /**
   * What the widget's extractor resolves with for the attachment of a send, as
   * written: a plain-text attachment arrives as "[object ArrayBuffer]".
   * Nothing is read without an attachment.
   */
  function AttachmentText(attached: Option<File>, read: ReadResult, libs: Libraries): Result<string, Extraction.ExtractError>
  {
    match attached
    case None => Success("")
    case Some(f) => AttachmentTextAsWritten(f.name, read, libs)
  }

  /** A `.txt` attachment that reads sends "[object ArrayBuffer]" in place of its content, whatever the query. */
  lemma TextAttachmentPrompt(f: File, stem: string, bytes: seq<byte>, libs: Libraries, userMessage: string)
    requires f.name == stem + ".txt"
    ensures AttachmentText(Some(f), Loaded(Some(bytes)), libs) == Success(ArrayBufferString)
    ensures Prompt(Some(f), AttachmentText(Some(f), Loaded(Some(bytes)), libs).value, userMessage)
      == AttachmentPrompt(f.name, ArrayBufferString, userMessage)
  {
    Extraction.RouteBySuffix(stem, ".txt");
  }

  /** The prompt sent for a message: the input itself, or the input behind the attached resume's text. */
  function Prompt(attached: Option<File>, fileText: string, userMessage: string): string
  {
    match attached
    case None => userMessage
    case Some(f) => AttachmentPrompt(f.name, fileText, userMessage)
  }

  /** The prompt that inlines an attached resume ahead of the user's query. */
  function AttachmentPrompt(name: string, fileText: string, userMessage: string): (p: string)
    ensures EndsWith(p, userMessage)
  {
    var head := "Regarding the attached resume (" + name + "), here is its content:\n\n---\n" + fileText + "\n---\n\nUser query: ";
    EndsWithAppend(head, userMessage);
    head + userMessage
  }

  /** The prompt holds the file's name and its whole text. */
  lemma AttachmentPromptHolds(name: string, fileText: string, userMessage: string)
    ensures Includes(AttachmentPrompt(name, fileText, userMessage), name)
    ensures Includes(AttachmentPrompt(name, fileText, userMessage), fileText)
  {
    var a := "Regarding the attached resume (";
    var b := "), here is its content:\n\n---\n";
    var c := "\n---\n\nUser query: ";
    assert AttachmentPrompt(name, fileText, userMessage) == a + name + (b + fileText + c + userMessage);
    IncludesInside(a, name, b + fileText + c + userMessage);
    assert AttachmentPrompt(name, fileText, userMessage) == (a + name + b) + fileText + (c + userMessage);
    IncludesInside(a + name + b, fileText, c + userMessage);
  }

  // ---------------------------------------------------------------------------
  // The streamed reply
  // ---------------------------------------------------------------------------

  /** A streamed chunk's `text`, which may be undefined. */
  datatype Chunk = Chunk(text: Option<string>)

  /** What `botResponse += chunk.text` appends: an undefined text becomes "undefined". */
  function ChunkText(c: Chunk): string
  {
    match c.text
    case Some(t) => t
    case None => "undefined"
  }

  /** The accumulated `botResponse` after the given chunks. */
  function StreamedText(chunks: seq<Chunk>): string
  {
    if chunks == [] then "" else StreamedText(chunks[..|chunks| - 1]) + ChunkText(chunks[|chunks| - 1])
  }

  /** The reply text splits at any point of the stream. */
  lemma {:induction false} StreamedTextAppend(a: seq<Chunk>, b: seq<Chunk>)
    ensures StreamedText(a + b) == StreamedText(a) + StreamedText(b)
  {
    if b != [] {
      assert (a + b)[..|a + b| - 1] == a + b[..|b| - 1];
      StreamedTextAppend(a, b[..|b| - 1]);
    } else {
      assert a + b == a;
    }
  }

  /** The reply text is the chunks' texts in order: the first chunk's text comes first. */
  lemma StreamedTextFront(c: Chunk, rest: seq<Chunk>)
    ensures StreamedText([c] + rest) == ChunkText(c) + StreamedText(rest)
    ensures StreamedText([Chunk(None)]) == "undefined"
  {
    StreamedTextAppend([c], rest);
    assert [c][..0] == [];
    assert [Chunk(None)][..0] == [];
  }

  /** How a chat session answers a prompt. */
  datatype ChatReply =
    | ConnectFailed
    | Streamed(chunks: seq<Chunk>, thenFails: bool)

  /**
   * The error update: a bot message at the end (the placeholder, possibly
   * already holding part of the reply) is replaced by the error, anything else
   * gets the error appended.
   */
  function WithConnectionError(messages: seq<Message>): (r: seq<Message>)
    requires messages != []
  {
    if messages[|messages| - 1].sender == Bot then messages[..|messages| - 1] + [ConnectionErrorMessage]
    else messages + [ConnectionErrorMessage]
  }

  /** The list never shrinks, only its last message may go, and it ends with the error. */
  lemma ConnectionErrorKeeps(messages: seq<Message>)
    requires messages != []
    ensures var r := WithConnectionError(messages);
      |messages| <= |r| <= |messages| + 1
      && r[..|messages| - 1] == messages[..|messages| - 1]
      && r[|r| - 1] == ConnectionErrorMessage
      && (|r| == |messages| <==> messages[|messages| - 1].sender == Bot)
  {
  }

  /** The message list after the chat part of a send, starting from `before`. */
  function AfterReply(before: seq<Message>, reply: ChatReply): seq<Message>
    requires before != []
  {
    match reply
    case ConnectFailed => WithConnectionError(before)
    case Streamed(chunks, thenFails) =>
      var streamed := before + [Message(Bot, StreamedText(chunks), false)];
      if thenFails then WithConnectionError(streamed) else streamed
  }

  /**
   * After the user's message: a stream that completes adds exactly one bot
   * message holding the whole reply; one that breaks off leaves exactly one
   * error message in its place; a failed connection adds the error message.
   */
  lemma ReplyOutcomes(before: seq<Message>, user: string, reply: ChatReply)
    ensures var base := before + [Message(User, user, false)];
      && (reply.Streamed? && !reply.thenFails ==> AfterReply(base, reply) == base + [Message(Bot, StreamedText(reply.chunks), false)])
      && (reply.Streamed? && reply.thenFails ==> AfterReply(base, reply) == base + [ConnectionErrorMessage])
      && (reply.ConnectFailed? ==> AfterReply(base, reply) == base + [ConnectionErrorMessage])
  {
    var base := before + [Message(User, user, false)];
    if reply.Streamed? && reply.thenFails {
      var streamed := base + [Message(Bot, StreamedText(reply.chunks), false)];
      assert streamed[..|streamed| - 1] == base;
    }
  }

  // ---------------------------------------------------------------------------
  // The widget
  // ---------------------------------------------------------------------------

  class Widget {
    var role: Role
    var isOpen: bool
    var messages: seq<Message>
    var input: string
    var isLoading: bool
    /** Whether `chat` holds a session (it is null until the widget is first opened). */
    var chatReady: bool
    var attachedFile: Option<File>
    /** Every prompt handed to the chat session, in order. */
    ghost var prompts: seq<string>

    constructor (role: Role)
      ensures this.role == role && !isOpen && messages == [] && input == "" && !isLoading
      ensures !chatReady && attachedFile == None && prompts == []
    {
      this.role := role;
      isOpen := false;
      messages := [];
      input := "";
      isLoading := false;
      chatReady := false;
      attachedFile := None;
      prompts := [];
    }

    /** The effect on `[isOpen, role]`: while open, a new session and the greeting alone. */
    method Reset()
      modifies this
      ensures isOpen ==> chatReady && messages == [Greeting]
      ensures !isOpen ==> chatReady == old(chatReady) && messages == old(messages)
      ensures isOpen == old(isOpen) && role == old(role) && input == old(input) && isLoading == old(isLoading)
      ensures attachedFile == old(attachedFile) && prompts == old(prompts)
    {
      if isOpen {
        chatReady := true;
        messages := [Greeting];
      }
    }

    /** The launcher button, followed by the effect. */
    method Open()
      modifies this
      ensures isOpen && chatReady && messages == [Greeting]
      ensures role == old(role) && input == old(input) && isLoading == old(isLoading)
      ensures attachedFile == old(attachedFile) && prompts == old(prompts)
    {
      isOpen := true;
      Reset();
    }

    /** The close button: the panel hides, the conversation is kept. */
    method Close()
      modifies this
      ensures !isOpen && messages == old(messages) && chatReady == old(chatReady)
      ensures role == old(role) && input == old(input) && isLoading == old(isLoading)
      ensures attachedFile == old(attachedFile) && prompts == old(prompts)
    {
      isOpen := false;
    }

    /**
     * A `role` prop at a re-render: the effect runs only when it differs from
     * the previous one, and then restarts an open conversation.
     */
    method ChangeRole(r: Role)
      modifies this
      ensures role == r && isOpen == old(isOpen)
      ensures r != old(role) && isOpen ==> chatReady && messages == [Greeting]
      ensures r == old(role) || !isOpen ==> chatReady == old(chatReady) && messages == old(messages)
      ensures input == old(input) && isLoading == old(isLoading)
      ensures attachedFile == old(attachedFile) && prompts == old(prompts)
    {
      if r != role {
        role := r;
        Reset();
      }
    }

    method SetInput(s: string)
      modifies this
      ensures input == s && messages == old(messages) && attachedFile == old(attachedFile)
      ensures role == old(role) && isOpen == old(isOpen) && isLoading == old(isLoading)
      ensures chatReady == old(chatReady) && prompts == old(prompts)
    {
      input := s;
    }

    /** `handleFileAttach`: the first chosen file, if any, becomes the attachment. */
    method HandleFileAttach(files: seq<File>)
      modifies this
      ensures files != [] ==> attachedFile == Some(files[0])
      ensures files == [] ==> attachedFile == old(attachedFile)
      ensures messages == old(messages) && input == old(input) && isLoading == old(isLoading)
      ensures role == old(role) && isOpen == old(isOpen) && chatReady == old(chatReady) && prompts == old(prompts)
    {
      if files != [] {
        attachedFile := Some(files[0]);
      }
    }

    /** The attachment's remove button. */
    method RemoveAttachment()
      modifies this
      ensures attachedFile == None
      ensures messages == old(messages) && input == old(input) && isLoading == old(isLoading)
      ensures role == old(role) && isOpen == old(isOpen) && chatReady == old(chatReady) && prompts == old(prompts)
    {
      attachedFile := None;
    }

    /**
     * The widget's own `extractTextFromFile(attachedFile)`: the pdf and docx
     * branches as in the dashboards, and the reader's buffer itself for any
     * other file that reads.
     */
    method ReadAttachment(read: ReadResult, libs: Libraries) returns (r: Result<string, Extraction.ExtractError>)
      requires attachedFile.Some?
      ensures r == AttachmentText(attachedFile, read, libs)
    {
      var f := attachedFile.value;
      if read.Loaded? && read.result.Some? && Extraction.Route(f.name) == Extraction.Utf8Format {
        r := Success(ArrayBufferString);
      } else {
        r := Extraction.ExtractTextFromFile(Extraction.ChatbotCopy, f, read, libs);
      }
    }

    /**
     * The `try` around `sendMessageStream`: the placeholder, rewritten with the
     * whole reply so far after every chunk, and the error update if the
     * connection fails or the stream breaks off.
     */
    method ReceiveReply(reply: ChatReply)
      requires messages != []
      modifies this
      ensures messages == AfterReply(old(messages), reply)
      ensures role == old(role) && isOpen == old(isOpen) && chatReady == old(chatReady) && input == old(input)
      ensures isLoading == old(isLoading) && attachedFile == old(attachedFile) && prompts == old(prompts)
    {
      match reply {
        case ConnectFailed =>
          messages := WithConnectionError(messages);
        case Streamed(chunks, thenFails) =>
          var base := messages;
          var botResponse := "";
          messages := messages + [Message(Bot, "", false)];
          var i := 0;
          while i < |chunks|
            invariant 0 <= i <= |chunks|
            invariant botResponse == StreamedText(chunks[..i])
            invariant messages == base + [Message(Bot, botResponse, false)]
            invariant role == old(role) && isOpen == old(isOpen) && chatReady == old(chatReady) && input == old(input)
            invariant isLoading == old(isLoading) && attachedFile == old(attachedFile) && prompts == old(prompts)
          {
            botResponse := botResponse + ChunkText(chunks[i]);
            assert chunks[..i + 1][..i] == chunks[..i];
            messages := messages[..|messages| - 1] + [messages[|messages| - 1].(text := botResponse)];
            i := i + 1;
          }
          assert chunks[..|chunks|] == chunks;
          if thenFails {
            messages := WithConnectionError(messages);
          }
      }
    }

    /**
     * The send guard `!input.trim() && !attachedFile`: nothing typed but white
     * space (see TrimEmptyIff) and nothing attached.
     */
    predicate Idle()
      reads this
    {
      Blank(input) && attachedFile.None?
    }

    /**
     * `handleSendMessage`. `read` is what reading the attachment delivers, and
     * `reply` how the session answers.
     */
    method HandleSendMessage(read: ReadResult, libs: Libraries, reply: ChatReply)
      modifies this
      ensures role == old(role) && isOpen == old(isOpen) && chatReady == old(chatReady)
      // Whitespace-only input and no attachment: nothing happens.
      ensures old(Idle()) ==> messages == old(messages) && input == old(input) && isLoading == old(isLoading)
      ensures old(Idle()) ==> attachedFile == old(attachedFile) && prompts == old(prompts)
      // Otherwise the untrimmed input becomes a user message, the input is
      // cleared and loading is over whatever happens next.
      ensures !old(Idle()) ==> input == "" && !isLoading
      // The attachment cannot be read: one error message, the attachment is
      // kept, the chat is not called.
      ensures !old(Idle()) && AttachmentText(old(attachedFile), read, libs).Failure?
        ==> messages == old(messages) + [Message(User, old(input), false), FileErrorMessage]
      ensures !old(Idle()) && AttachmentText(old(attachedFile), read, libs).Failure?
        ==> attachedFile == old(attachedFile) && prompts == old(prompts)
      // Otherwise the attachment is used up and, if there is a session, the
      // prompt is sent and the reply comes in.
      ensures !old(Idle()) && AttachmentText(old(attachedFile), read, libs).Success? ==> attachedFile == None
      ensures !old(Idle()) && AttachmentText(old(attachedFile), read, libs).Success? && !chatReady
        ==> messages == old(messages) + [Message(User, old(input), false), NotInitializedMessage] && prompts == old(prompts)
      ensures !old(Idle()) && AttachmentText(old(attachedFile), read, libs).Success? && chatReady
        ==> messages == AfterReply(old(messages) + [Message(User, old(input), false)], reply)
      ensures !old(Idle()) && AttachmentText(old(attachedFile), read, libs).Success? && chatReady
        ==> prompts == old(prompts) + [Prompt(old(attachedFile), AttachmentText(old(attachedFile), read, libs).value, old(input))]
    {
      if Idle() {
        return;
      }
      var userMessage := input;
      var fullPrompt := userMessage;
      messages := messages + [Message(User, userMessage, false)];
      input := "";
      isLoading := true;
      if attachedFile.Some? {
        var fileText := ReadAttachment(read, libs);
        if fileText.Failure? {
          messages := messages + [FileErrorMessage];
          isLoading := false;
          return;
        }
        fullPrompt := Prompt(attachedFile, fileText.value, userMessage);
        attachedFile := None;
      }
      if !chatReady {
        messages := messages + [NotInitializedMessage];
        isLoading := false;
        return;
      }
      prompts := prompts + [fullPrompt];
      ReceiveReply(reply);
      isLoading := false;
    }
  }
}
