// Argument validation and the audio-extension to encoding mapping of the
// Speech-to-Text samples (speech/api/parse_arguments.cc).
module SpeechArgs {
  import opened Wrappers
  import opened Text

  /** The option values after command-line tokenising; None when not given. */
  datatype CommandLine = CommandLine(path: Option<string>, bitrate: Option<int>, languageCode: Option<string>)

  /** RecognitionConfig encodings the sample selects. */
  datatype AudioEncoding = LINEAR16 | MULAW | FLAC | AMR | AMR_WB

  datatype RecognitionConfig = RecognitionConfig(languageCode: string, sampleRateHertz: int, encoding: AudioEncoding)

  datatype ParseResult = ParseResult(config: RecognitionConfig, path: string)

  /** A missing required `path` is reported by the option parser; the other
      two are the runtime_error messages of the sample. */
  datatype ParseError = MissingPath | Invalid(message: string)

  const DefaultBitrate := 16000
  const DefaultLanguageCode := "en"

  /** std::string::rfind('.'). */
  function LastDot(s: string): (r: Option<nat>)
    ensures r.None? <==> '.' !in s
    ensures r.Some? ==> r.value < |s| && s[r.value] == '.' && '.' !in s[r.value + 1..]
  {
    if s == [] then None
    else if s[|s| - 1] == '.' then Some(|s| - 1)
    else
      var r := LastDot(s[..|s| - 1]);
      assert s == s[..|s| - 1] + [s[|s| - 1]];
      r
  }

  /** The lowercased suffix of the path from its last '.', or "" without one. */
  function Extension(path: string): string
  {
    match LastDot(path)
    case None => ""
    case Some(e) => ToLower(path[e..])
  }

  /** A path without a '.' has no extension. */
  lemma NoDotNoExtension(path: string)
    requires '.' !in path
    ensures Extension(path) == ""
  {
  }

  /** The extension is the text after the last '.', lowercased, with the dot. */
  lemma ExtensionOfSuffix(stem: string, suffix: string)
    requires '.' !in suffix
    ensures Extension(stem + "." + suffix) == "." + ToLower(suffix)
  {
    var s := stem + "." + suffix;
    assert s[|stem|] == '.';
    var e := LastDot(s).value;
    assert e == |stem|;
    assert s[e..] == "." + suffix;
  }

  /** ParseArguments: validation, then the configuration chosen by the extension. */
  function ParseArguments(cl: CommandLine): (r: Result<ParseResult, ParseError>)
    ensures r == Err(MissingPath) <==> cl.path.None?
    ensures r.Ok? <==> (cl.path.Some? && cl.path.value != ""
                        && (cl.bitrate.None? || cl.bitrate.value >= 0))
    ensures cl.path == Some("") ==> r == Err(Invalid("The audio file path cannot be empty"))
    ensures cl.path.Some? && cl.path.value != "" && cl.bitrate.Some? && cl.bitrate.value < 0 ==>
      r == Err(Invalid("--bitrate option must be a positive number, value=" + IntToDecimal(cl.bitrate.value)))
    ensures r.Ok? ==> (r.value.path == cl.path.value
                       && r.value.config.languageCode
                          == if cl.languageCode.Some? then cl.languageCode.value else DefaultLanguageCode)
  {
    if cl.path.None? then Err(MissingPath)
    else
      var path := cl.path.value;
      var bitrate := if cl.bitrate.Some? then cl.bitrate.value else DefaultBitrate;
      var languageCode := if cl.languageCode.Some? then cl.languageCode.value else DefaultLanguageCode;
      if path == [] then Err(Invalid("The audio file path cannot be empty"))
      else if bitrate < 0 then
        Err(Invalid("--bitrate option must be a positive number, value=" + IntToDecimal(bitrate)))
      else
        var config := RecognitionConfig(languageCode, bitrate, LINEAR16);
        var config := ApplyExtension(config, Extension(path));
        Ok(ParseResult(config, path))
  }

  /** The encoding (and, for the AMR formats, the sample rate) an extension selects. */
  function ApplyExtension(config: RecognitionConfig, ext: string): RecognitionConfig
  {
    if ext == "" || ext == ".raw" then config.(encoding := LINEAR16)
    else if ext == ".ulaw" then config.(encoding := MULAW)
    else if ext == ".flac" then config.(encoding := FLAC)
    else if ext == ".amr" then config.(encoding := AMR, sampleRateHertz := 8000)
    else if ext == ".awb" then config.(encoding := AMR_WB, sampleRateHertz := 16000)
    else config.(encoding := LINEAR16)
  }

  /** The encoding each file name suffix selects, in any letter case. */
  function SuffixEncoding(lower: string): AudioEncoding
  {
    if lower == "ulaw" then MULAW
    else if lower == "flac" then FLAC
    else if lower == "amr" then AMR
    else if lower == "awb" then AMR_WB
    else LINEAR16
  }

  /** The sample rate the configuration carries for a given encoding: AMR is
      always narrow band, AMR-WB always wide band, the rest take the bitrate. */
  function RateFor(encoding: AudioEncoding, bitrate: int): int
  {
    match encoding
    case AMR => 8000
    case AMR_WB => 16000
    case _ => bitrate
  }

  /** An extension selects the encoding of its lowercased suffix, and the
      sample rate follows the encoding; nothing else in the configuration changes. */
  lemma ExtensionConfig(config: RecognitionConfig, lower: string)
    ensures var c := ApplyExtension(config, "." + lower);
      c.encoding == SuffixEncoding(lower)
      && c.sampleRateHertz == RateFor(SuffixEncoding(lower), config.sampleRateHertz)
      && c.languageCode == config.languageCode
  {
    var ext := "." + lower;
    assert ext[1..] == lower;
    assert ".ulaw"[1..] == "ulaw" && ".flac"[1..] == "flac" && ".amr"[1..] == "amr" && ".awb"[1..] == "awb";
  }

  /** For `stem.suffix`, the encoding is chosen by the lowercased suffix and
      the sample rate follows it. */
  lemma EncodingFromSuffix(stem: string, suffix: string, bitrate: Option<int>, languageCode: Option<string>)
    requires '.' !in suffix
    requires bitrate.None? || bitrate.value >= 0
    ensures var r := ParseArguments(CommandLine(Some(stem + "." + suffix), bitrate, languageCode));
      var b := if bitrate.Some? then bitrate.value else DefaultBitrate;
      r.Ok? && r.value.config.encoding == SuffixEncoding(ToLower(suffix))
      && r.value.config.sampleRateHertz == RateFor(SuffixEncoding(ToLower(suffix)), b)
  {
    ExtensionOfSuffix(stem, suffix);
    var b := if bitrate.Some? then bitrate.value else DefaultBitrate;
    var l := if languageCode.Some? then languageCode.value else DefaultLanguageCode;
    ExtensionConfig(RecognitionConfig(l, b, LINEAR16), ToLower(suffix));
  }

  /** A path without a '.' is transcribed as LINEAR16 at the given bitrate. */
  lemma NoExtensionIsLinear16(path: string, bitrate: Option<int>, languageCode: Option<string>)
    requires path != "" && '.' !in path
    requires bitrate.None? || bitrate.value >= 0
    ensures var r := ParseArguments(CommandLine(Some(path), bitrate, languageCode));
      r.Ok? && r.value.config.encoding == LINEAR16
      && r.value.config.sampleRateHertz == (if bitrate.Some? then bitrate.value else DefaultBitrate)
  {
    NoDotNoExtension(path);
  }
}
