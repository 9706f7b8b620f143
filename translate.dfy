/**
 * translateFile: an ignition file entry's data URI is decoded, then the
 * translation registered for the file, if any, is applied to the bytes.
 */
module Translate {
  import opened Errors
  import opened DataUri
  import KubeletConf
  import CloudConf

  /** The translation function a file entry is registered with. */
  datatype Transform =
    | Verbatim                                        // no translation function: the decoded bytes as they are
    | KubeletConfig                                   // prepKubeletConfForWindows
    | CloudConfig                                     // the cloud-config extractor
    | Custom(f: (string, string) -> Result<string>)   // any other function of the install directory and the bytes

  function Apply(t: Transform, installDir: string, data: string): Result<string>
  {
    match t
    case Verbatim => Ok(data)
    case KubeletConfig => KubeletConf.PrepKubeletConfForWindows(installDir, data)
    case CloudConfig => CloudConf.ExtractCloudConf(data)
    case Custom(f) => f(installDir, data)
  }

  /** Decoding failures surface as they are; a failing translation is reported as such. */
  function TranslateFile(installDir: string, source: string, t: Transform): (r: Result<string>)
    ensures DecodeDataUri(source).Err? ==> r == Err(DecodeDataUri(source).error)
    ensures DecodeDataUri(source).Ok? && Apply(t, installDir, DecodeDataUri(source).value).Err? ==> r.Err? && r.error.TransformFailed?
    ensures t.Verbatim? ==> r == DecodeDataUri(source)
  {
    match DecodeDataUri(source)
    case Err(e) => Err(e)
    case Ok(data) =>
      match Apply(t, installDir, data)
      case Err(e) => Err(TransformFailed(Message(e)))
      case Ok(out) => Ok(out)
  }

  /** Without a translation function the file is exactly its decoded payload. */
  lemma TranslateVerbatim(installDir: string, b: string)
    requires IsByteString(b)
    ensures TranslateFile(installDir, EncodeDataUri(b), Verbatim) == Ok(b)
  {
    DataUriRoundTrip(b);
  }

  /** A translation function sees the decoded payload and its result is the file. */
  lemma TranslateCustom(installDir: string, b: string, f: (string, string) -> Result<string>)
    requires IsByteString(b) && f(installDir, b).Ok?
    ensures TranslateFile(installDir, EncodeDataUri(b), Custom(f)) == f(installDir, b)
  {
    DataUriRoundTrip(b);
  }

  /** The identity function translates every source as no function does. */
  lemma IdentityIsVerbatim(installDir: string, source: string)
    ensures TranslateFile(installDir, source, Custom((d, x) => Ok(x))) == TranslateFile(installDir, source, Verbatim)
  {
  }

  /**
   * A certificate source made of plain runs and escapes, as in the first table
   * case, decodes with every escape resolved; a function appending "suffix",
   * as in the second case, appends it to the decoded text.
   */
  lemma TranslateCertificate(installDir: string, ps: seq<Piece>)
    requires WellFormedPieces(ps)
    ensures TranslateFile(installDir, Scheme + Source(ps), Verbatim) == Ok(Text(ps))
    ensures TranslateFile(installDir, Scheme + Source(ps), Custom((d, x) => Ok(x + "suffix"))) == Ok(Text(ps) + "suffix")
  {
    CertificateEscapesDecode(ps);
  }

  /** A source that is not a `data:,` URI is refused whatever the translation. */
  lemma TranslateRefusesOtherSchemes(installDir: string, source: string, t: Transform)
    requires !(Scheme <= source)
    ensures TranslateFile(installDir, source, t) == Err(NotADataUri)
  {
  }

  /** The embedded cloud configuration comes out rendered as `key: value` items. */
  lemma TranslateCloudConfig(installDir: string, es: seq<CloudConf.Entry>)
    requires forall k :: 0 <= k < |es| ==> CloudConf.WellFormed(es[k])
    requires IsByteString(CloudConf.Serialize(es))
    ensures TranslateFile(installDir, EncodeDataUri(CloudConf.Serialize(es)), CloudConfig) == Ok(CloudConf.Render(es))
  {
    DataUriRoundTrip(CloudConf.Serialize(es));
    CloudConf.ExtractSerialized(es);
  }
}
