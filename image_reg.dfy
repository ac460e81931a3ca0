/** `main` of `image_reg/image_reg.py`: text recognition of one image by a
    Gemma model. The key is taken from the environment, the image from the
    command line or a fallback, and the request is the fixed instruction
    followed by the image, given by URL or read from a file. */
module ImageReg {
  import opened Wrappers
  import opened Text
  import opened Fallback

  const RecognitionModel := "gemma-3-27b-it"
  const RecognitionPrompt := "請辨識這張圖片中的文字，直接輸出文字內容即可，不要有額外的描述。"

  /** `GEMINI_API_KEY`, or `GOOGLE_API_KEY` when the first is unset or empty;
      an empty key counts as none. */
  function ApiKey(gemini: Option<string>, google: Option<string>): (r: Option<string>)
    ensures r.Some? ==> r.value != ""
    ensures r.Some? <==> (gemini.Some? && gemini.value != "") || (google.Some? && google.value != "")
    ensures gemini.Some? && gemini.value != "" ==> r == gemini
    ensures (gemini.None? || gemini.value == "") ==> r == (if google.Some? && google.value != "" then google else None)
  {
    if gemini.Some? && gemini.value != "" then gemini
    else if google.Some? && google.value != "" then google
    else None
  }

  /** The first command-line argument when there is one, else the built-in
      fallback. `argv[0]` is the script itself. */
  function ImageSource(argv: seq<string>, fallback: string): (r: string)
    ensures |argv| > 1 ==> r == argv[1]
    ensures |argv| <= 1 ==> r == fallback
  {
    if |argv| > 1 then argv[1] else fallback
  }

  predicate IsUrl(src: string)
  {
    StartsWith(src, "http://") || StartsWith(src, "https://")
  }

  /** The MIME type guessed from the lower-cased source: `.png`, then
      `.webp`, then `.jpg`/`.jpeg`, and JPEG when none occurs. */
  function MimeType(src: string): string
  {
    var lower := Lower(src);
    if Contains(lower, ".png") then "image/png"
    else if Contains(lower, ".webp") then "image/webp"
    else if Contains(lower, ".jpg") || Contains(lower, ".jpeg") then "image/jpeg"
    else "image/jpeg"
  }

  /** The guess is one of three types: PNG exactly when `.png` occurs, WebP
      exactly when `.webp` occurs and `.png` does not, JPEG otherwise. */
  lemma MimeTypeCases(src: string)
    ensures MimeType(src) in {"image/png", "image/webp", "image/jpeg"}
    ensures MimeType(src) == "image/png" <==> Contains(Lower(src), ".png")
    ensures MimeType(src) == "image/webp" <==> !Contains(Lower(src), ".png") && Contains(Lower(src), ".webp")
    ensures MimeType(src) == "image/jpeg" <==> !Contains(Lower(src), ".png") && !Contains(Lower(src), ".webp")
  {
  }

  /** One element of the request: text, an image by URI, or an image file. */
  datatype Part = Prompt(text: string) | ImageUri(uri: string, mime: string) | ImageFile(path: string)

  /** The request: the instruction, then the image; None when a path is not an
      existing file. */
  function Payload(src: string, isFile: string -> bool): Option<seq<Part>>
  {
    if IsUrl(src) then Some([Prompt(RecognitionPrompt), ImageUri(src, MimeType(src))])
    else if isFile(src) then Some([Prompt(RecognitionPrompt), ImageFile(src)])
    else None
  }

  /** `content_payload`, appended to step by step. */
  method BuildPayload(src: string, isFile: string -> bool) returns (payload: Option<seq<Part>>)
    ensures payload == Payload(src, isFile)
  {
    var parts: seq<Part> := [];
    parts := parts + [Prompt(RecognitionPrompt)];
    if StartsWith(src, "http://") || StartsWith(src, "https://") {
      var mime := "image/jpeg";
      var lower := Lower(src);
      if Contains(lower, ".png") {
        mime := "image/png";
      } else if Contains(lower, ".webp") {
        mime := "image/webp";
      } else if Contains(lower, ".jpg") || Contains(lower, ".jpeg") {
        mime := "image/jpeg";
      }
      assert mime == MimeType(src);
      parts := parts + [ImageUri(src, mime)];
      assert parts == [Prompt(RecognitionPrompt), ImageUri(src, MimeType(src))];
    } else {
      if !isFile(src) {
        return None;
      }
      parts := parts + [ImageFile(src)];
      assert parts == [Prompt(RecognitionPrompt), ImageFile(src)];
    }
    return Some(parts);
  }

  /** A request is the instruction followed by exactly one image: by URI
      exactly for a URL source, from the file otherwise; only a missing file
      stops it. */
  lemma PayloadShape(src: string, isFile: string -> bool)
    ensures Payload(src, isFile).None? <==> !IsUrl(src) && !isFile(src)
    ensures Payload(src, isFile).Some? ==>
      var p := Payload(src, isFile).value;
      |p| == 2 && p[0] == Prompt(RecognitionPrompt)
      && (p[1].ImageUri? <==> IsUrl(src)) && (p[1].ImageUri? ==> p[1].uri == src)
      && (p[1].ImageFile? ==> p[1].path == src)
  {
  }

  /** How the program ends. */
  datatype Ending = NoKey | MissingFile(path: string) | Recognised(text: string) | NoText | Error(message: string)

  /** The whole program: no key stops before any request; a missing file stops
      before the model is called; otherwise the model's text, its silence or
      its error. `generate` is the model call. */
  function Recognise(gemini: Option<string>, google: Option<string>, argv: seq<string>, fallback: string,
                     isFile: string -> bool, generate: (string, seq<Part>) -> Outcome): Ending
  {
    if ApiKey(gemini, google).None? then NoKey
    else
      var src := ImageSource(argv, fallback);
      match Payload(src, isFile)
      case None => MissingFile(src)
      case Some(p) =>
        match generate(RecognitionModel, p)
        case Answer(t) => if t != "" then Recognised(t) else NoText
        case Raised(e) => Error(e)
  }

  /** The model is asked only with a key and an image, and then with the
      instruction and that one image. */
  lemma RecogniseAsksOnlyWithImage(gemini: Option<string>, google: Option<string>, argv: seq<string>,
                                   fallback: string, isFile: string -> bool,
                                   generate: (string, seq<Part>) -> Outcome)
    ensures var e := Recognise(gemini, google, argv, fallback, isFile, generate);
      (e.NoKey? <==> ApiKey(gemini, google).None?)
      && (e.MissingFile? ==> !IsUrl(ImageSource(argv, fallback)) && !isFile(ImageSource(argv, fallback)))
      && (e.Recognised? ==>
            (e.text != "" && generate(RecognitionModel, Payload(ImageSource(argv, fallback), isFile).value) == Answer(e.text)))
  {
  }
}
