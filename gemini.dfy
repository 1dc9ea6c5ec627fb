/**
 * The client side of src/lib/gemini.ts: the browser storage that holds the
 * session log, the operations that read, append to and clear it, and the two
 * analysis calls, whose only lasting effect is what they append to the log.
 * The generative-model call is a parameter `generate`, any total function from
 * requests to replies; the clock readings (`Date.now()`) are parameters too.
 */
module Gemini {
  import opened Wrappers
  import opened ImageValidator
  import opened SessionLog

  /** The instruction sent with every image. */
  const ImagePrompt: string :=
    "Analyze this image and provide a detailed breakdown of its components in terms of environmental impact and recyclability. Include: 1. Material composition 2. Environmental impact 3. Recycling recommendations 4. Sustainable alternatives"

  /** The instruction put in front of every product description. */
  const TextPromptLead: string := "Analyze this product description in terms of environmental impact: "

  /** The user message recorded for an image analysis. */
  const ImagePlaceholder: string := "Uploaded an image for analysis"

  /** The error texts used when what was thrown is not an `Error` object. */
  const ImageFallback: string := "Error analyzing image. Please try again."
  const TextFallback: string := "Error analyzing text. Please try again."

  /** What was thrown: an `Error` with its message, or any other value. */
  datatype Thrown = ErrorObject(message: string) | NonError

  /** What the model call settles to: the response text, or what it threw. */
  datatype ModelReply = Replied(text: string) | Threw(error: Thrown)

  datatype InlineData = InlineData(data: string, mimeType: string)

  /** The contents handed to `generateContent`. */
  datatype Request = Request(prompt: string, image: Option<InlineData>)

  /** The request for an accepted image: the fixed instruction and the base64 body, sent as JPEG. */
  function ImageRequest(imageData: string): (r: Request)
    requires IsValidBase64Image(imageData)
    ensures r.prompt == ImagePrompt && r.image.Some? && r.image.value.mimeType == "image/jpeg"
    ensures r.image.value.data == Base64Body(imageData).value && r.image.value.data != ""
  {
    Request(ImagePrompt, Some(InlineData(Base64Body(imageData).value, "image/jpeg")))
  }

  /** The request for a product description: the description is passed on verbatim after the fixed lead. */
  function TextRequest(prompt: string): (r: Request)
    ensures r.image == None
    ensures StartsWith(r.prompt, TextPromptLead) && r.prompt[|TextPromptLead|..] == prompt
  {
    Request(TextPromptLead + prompt, None)
  }

  /** The text the `catch` blocks return: the error's message wrapped in a fixed frame, or a fixed fallback. */
  function ErrorText(e: Thrown, fallback: string): (t: string)
    ensures e.ErrorObject? ==> |t| == |e.message| + 26 && StartsWith(t, "Error: ")
    ensures e.ErrorObject? ==> t[7..|t| - 19] == e.message && t[|t| - 19..] == ". Please try again."
    ensures e.NonError? ==> t == fallback
  {
    match e
    case ErrorObject(message) => "Error: " + message + ". Please try again."
    case NonError => fallback
  }

  /**
   * The browser environment of the module: whether `window` exists, and the
   * origin's `localStorage`, key by key.
   */
  class Store {
    const hasWindow: bool
    var items: map<string, Entry>

    constructor (hasWindow: bool, items: map<string, Entry>)
      ensures this.hasWindow == hasWindow && this.items == items
    {
      this.hasWindow := hasWindow;
      this.items := items;
    }

    /**
     * getSessionHistory on the current storage: the stored record's messages,
     * or none without a window or a readable record.
     */
    function History(): (h: seq<ChatMessage>)
      reads this
      ensures !hasWindow || SessionKey !in items || !items[SessionKey].Parsed? ==> h == []
      ensures hasWindow && SessionKey in items && items[SessionKey].Parsed? ==> h == items[SessionKey].session.messages
    {
      ReadHistory(hasWindow, items)
    }

    /**
     * updateSessionData: read the session, append `m`, stamp it `now`, keep
     * the last ten messages and write the record back; nothing without a window.
     */
    method UpdateSessionData(m: ChatMessage, now: int)
      modifies this
      ensures hasWindow ==>
        items == old(items)[SessionKey := Parsed(SessionData(KeepLast(old(History()) + [m], MaxMessages), now))]
      ensures !hasWindow ==> items == old(items)
    {
      if !hasWindow {
        return;
      }
      var current := ReadSession(hasWindow, items, now);
      var updated := SessionData(current.messages + [m], now);
      if |updated.messages| > MaxMessages {
        updated := updated.(messages := SliceFromEnd(updated.messages, MaxMessages));
      }
      KeepLastIsSliceFromEnd(current.messages + [m], MaxMessages);
      items := items[SessionKey := Parsed(updated)];
    }

    /** clearSession: remove the key; afterwards the history reads empty, with or without a window. */
    method ClearSession()
      modifies this
      ensures items == if hasWindow then old(items) - {SessionKey} else old(items)
      ensures History() == []
    {
      if hasWindow {
        items := items - {SessionKey};
      }
    }

    /**
     * The two writes of a successful analysis: the user message, then the
     * assistant message. Together they append both and trim once.
     */
    method RecordExchange(user: ChatMessage, assistant: ChatMessage)
      modifies this
      ensures hasWindow ==>
        items == old(items)[SessionKey := Parsed(SessionData(KeepLast(old(History()) + [user, assistant], MaxMessages), assistant.timestamp))]
      ensures !hasWindow ==> items == old(items)
    {
      ghost var before, start := History(), items;
      UpdateSessionData(user, user.timestamp);
      ghost var middle, between := History(), items;
      UpdateSessionData(assistant, assistant.timestamp);
      if hasWindow {
        ghost var last := KeepLast(middle + [assistant], MaxMessages);
        assert middle == KeepLast(before + [user], MaxMessages);
        TwoWrites(before, user, assistant);
        assert items == between[SessionKey := Parsed(SessionData(last, assistant.timestamp))];
        assert between == start[SessionKey := Parsed(SessionData(middle, user.timestamp))];
      }
    }

    /**
     * analyzeImage: refuse an invalid payload, else ask the model; on a reply
     * record the placeholder user message with the image and the assistant's
     * text and return that text; on any failure record nothing and return an
     * error text.
     */
    method AnalyzeImage(imageData: string, generate: Request -> ModelReply, userTime: int, replyTime: int)
      returns (text: string)
      modifies this
      ensures !IsValidBase64Image(imageData) ==>
        text == ErrorText(ErrorObject("Invalid image data"), ImageFallback) && items == old(items)
      ensures IsValidBase64Image(imageData) && generate(ImageRequest(imageData)).Threw? ==>
        text == ErrorText(generate(ImageRequest(imageData)).error, ImageFallback) && items == old(items)
      ensures IsValidBase64Image(imageData) && generate(ImageRequest(imageData)).Replied? ==>
        var answer := generate(ImageRequest(imageData)).text;
        var user := ChatMessage(User, ImagePlaceholder, userTime, Some(imageData));
        var assistant := ChatMessage(Assistant, answer, replyTime, None);
        text == answer &&
        items == if hasWindow
                 then old(items)[SessionKey := Parsed(SessionData(KeepLast(old(History()) + [user, assistant], MaxMessages), replyTime))]
                 else old(items)
    {
      if !IsValidBase64Image(imageData) {
        return ErrorText(ErrorObject("Invalid image data"), ImageFallback);
      }
      var reply := generate(ImageRequest(imageData));
      match reply
      case Threw(e) =>
        text := ErrorText(e, ImageFallback);
      case Replied(answer) =>
        RecordExchange(ChatMessage(User, ImagePlaceholder, userTime, Some(imageData)),
                       ChatMessage(Assistant, answer, replyTime, None));
        text := answer;
    }

    /**
     * analyzePrompt: ask the model about the description; on a reply record
     * the description and the assistant's text and return that text; on a
     * failure record nothing and return an error text.
     */
    method AnalyzePrompt(prompt: string, generate: Request -> ModelReply, userTime: int, replyTime: int)
      returns (text: string)
      modifies this
      ensures generate(TextRequest(prompt)).Threw? ==>
        text == ErrorText(generate(TextRequest(prompt)).error, TextFallback) && items == old(items)
      ensures generate(TextRequest(prompt)).Replied? ==>
        var answer := generate(TextRequest(prompt)).text;
        var user := ChatMessage(User, prompt, userTime, None);
        var assistant := ChatMessage(Assistant, answer, replyTime, None);
        text == answer &&
        items == if hasWindow
                 then old(items)[SessionKey := Parsed(SessionData(KeepLast(old(History()) + [user, assistant], MaxMessages), replyTime))]
                 else old(items)
    {
      var reply := generate(TextRequest(prompt));
      match reply
      case Threw(e) =>
        text := ErrorText(e, TextFallback);
      case Replied(answer) =>
        RecordExchange(ChatMessage(User, prompt, userTime, None), ChatMessage(Assistant, answer, replyTime, None));
        text := answer;
    }
  }
}
