/**
 * The external programs the pipeline drives, as total functions of what they
 * read: GraphicsMagick (identify, convert), sharp (re-encode, metadata,
 * render) and the operating system's directory order.
 */
module Tools {
  import opened Wrappers
  import opened FileSystem

  /** How a spawned `gm identify -format %n <file>` ended. */
  datatype IdentifyRun =
    | IdentifySpawnError(message: string)
    | IdentifyClosed(code: Option<int>, stdout: string, stderr: string)

  /** How a spawned `gm convert -density <d> <file>[<page>] <out>` ended. */
  datatype ConvertRun =
    | ConvertSpawnError(message: string)
    | ConvertClosed(code: Option<int>, stderr: string)

  /** sharp(file).metadata(): rejected, or the width and height it reports. */
  datatype Metadata = MetadataRejected(reason: string) | Metadata(width: Option<nat>, height: Option<nat>)

  /** The density every page is rasterised at. */
  const Density: nat := 300

  datatype Tools = Tools(
    identify: Option<Blob> -> IdentifyRun,
    convertPage: (Option<Blob>, int, nat) -> ConvertRun,
    reencode: Option<Blob> -> bool,
    metadata: Option<Blob> -> Metadata,
    render: Blob -> bool,
    listing: Dir -> seq<string>)
}
