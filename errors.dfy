/**
 * The failure vocabulary of the bootstrapper: an Option type, a Result type and
 * an Outcome type, all carrying the bootstrapper's own Error kinds.
 */
module Errors {

  datatype Option<T> = None | Some(value: T)

  /** Every way an operation of the bootstrapper can fail. */
  datatype Error =
    // data URI and percent-decoding failures
    | NotADataUri
    | InvalidEscape
    // kubelet configuration rewrite: a required anchor is missing
    | MissingKubeletField(field: string)
    | KubeletConfigNotObject
    // cloud provider configuration that is not a flat JSON object
    | CloudConfigSyntax
    // a file-specific transformation refused its input
    | TransformFailed(reason: string)
    // the kubelet unit's --cloud-config value has no usable file name
    | InvalidCloudConfigArg(value: string)
    // writing a translated file onto an existing directory
    | WriteFailed(path: string)
    // checkCNIInputs
    | InstallDirAccess(path: string)
    | CniPathAccess(path: string)
    | CniPathIsFile(path: string)
    | CniConfigAccess(path: string)
    | CniConfigIsDir(path: string)
    // ensureCNIDirIsPresent
    | DirCreationFailed(path: string)
    // copyCNIFiles
    | CniPathRead(path: string)
    | NoFilesPresent(path: string)
    | CopyFailed(path: string)
    // ConfigureCNI
    | KubeletServiceMissing

  /** The fixed text each error's message carries. */
  function Message(e: Error): string
  {
    match e
    case NotADataUri => "not a data URI"
    case InvalidEscape => "invalid percent escape"
    case MissingKubeletField(_) => "missing kubelet configuration field"
    case KubeletConfigNotObject => "kubelet configuration is not a JSON object"
    case CloudConfigSyntax => "malformed cloud configuration"
    case TransformFailed(_) => "could not translate file"
    case InvalidCloudConfigArg(_) => "could not get cloud config filename"
    case WriteFailed(_) => "could not write file"
    case InstallDirAccess(_) => "error accessing install directory"
    case CniPathAccess(_) => "error accessing CNI path"
    case CniPathIsFile(_) => "CNI path cannot be a file"
    case CniConfigAccess(_) => "error accessing CNI config"
    case CniConfigIsDir(_) => "CNI config cannot be a directory"
    case DirCreationFailed(_) => "error creating directory"
    case CniPathRead(_) => "error reading CNI path"
    case NoFilesPresent(_) => "no files present"
    case CopyFailed(_) => "error copying file"
    case KubeletServiceMissing => "kubelet service is not present"
  }

  datatype Result<T> = Ok(value: T) | Err(error: Error)

  datatype Outcome = Pass | Fail(error: Error)
}
