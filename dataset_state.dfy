/** The process-wide dataset selection (`DatasetState` and its readers and mutators). */
module State {
  import opened Wrappers

  const DefaultDatasetFilename: string := "marketing_sample_for_ebay_com-ebay_com_product_details.csv"
  const DefaultModeText: string := "Default dataset (preview trimmed to 2000 rows)"
  const UploadModeText: string := "User uploaded dataset (full file, NOT trimmed)"

  /** The row cap of the default dataset. */
  const DefaultCap: nat := 2000

  /** The two values `DatasetState.mode` takes. */
  datatype Mode = Default | Upload {
    /** The string the source stores and reports. */
    function Name(): (s: string)
      ensures s == "default" <==> this == Default
    {
      if this == Default then "default" else "upload"
    }
  }

  class DatasetState {
    var mode: Mode
    var path: string

    /** A default-mode state always points at the bundled file. */
    predicate Valid()
      reads this
    {
      mode == Default ==> path == DefaultDatasetFilename
    }

    constructor()
      ensures mode == Default && path == DefaultDatasetFilename
      ensures Valid()
    {
      mode := Default;
      path := DefaultDatasetFilename;
    }

    /** `get_current_path()`: the uploaded path in upload mode, else the bundled file. */
    function CurrentPath(): (p: string)
      reads this
      ensures mode == Upload ==> p == path
      ensures mode == Default ==> p == DefaultDatasetFilename
      ensures Valid() ==> p == path
    {
      if mode == Upload then path else DefaultDatasetFilename
    }

    /** `get_mode_text()`: one fixed sentence per mode. */
    function ModeText(): (t: string)
      reads this
      ensures mode == Default ==> t == DefaultModeText
      ensures mode == Upload ==> t == UploadModeText
    {
      if mode == Default then DefaultModeText else UploadModeText
    }

    /** The `hard_cap` every scan computes: 2000 rows in default mode, none in upload mode. */
    function HardCap(): (cap: Option<nat>)
      reads this
      ensures cap.Some? <==> mode == Default
      ensures cap.Some? ==> cap.value == DefaultCap
    {
      if mode == Default then Some(DefaultCap) else None
    }

    /** `set_uploaded_path(path)`: switch to upload mode on `p`. */
    method SetUploadedPath(p: string)
      modifies this
      ensures mode == Upload && path == p
      ensures Valid() && CurrentPath() == p && ModeText() == UploadModeText && HardCap() == None
    {
      mode := Upload;
      path := p;
    }

    /** `set_default()`: back to the bundled file, whatever was uploaded before. */
    method SetDefault()
      modifies this
      ensures mode == Default && path == DefaultDatasetFilename
      ensures Valid() && CurrentPath() == DefaultDatasetFilename && ModeText() == DefaultModeText
      ensures HardCap() == Some(DefaultCap)
    {
      mode := Default;
      path := DefaultDatasetFilename;
    }
  }
}
