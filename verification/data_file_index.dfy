/**
 * `DataFileIndex.getInstance`: the choice of index a servlet gets. With the
 * "index-type" parameter set to "filesystem" one filesystem index is built
 * per servlet context and kept in its "data-index" attribute; in every other
 * case a show_info index is made afresh for the call and kept nowhere.
 * Calls are sequential here, so the double-checked locking reduces to one
 * test of the attribute.
 */
module DataFileIndexes {
  import opened Results
  import opened JavaStrings
  import FS = FilesystemIndex
  import SI = ShowInfoIndex

  /** The two kinds of index. A filesystem index keeps its directories and update period. */
  datatype Instance =
    | Filesystem(index: FS.Index, rootDirectory: string, indexDirectory: string, logDirectory: string,
                 updateInterval: int)
    | ShowInfo(showInfo: SI.ShowInfo)

  /** What `getInstance` can throw. */
  datatype Failure = NullPointer | NumberFormat | IllegalArgument | ShowInfoFailure(cause: SI.Failure)

  /**
   * The parts of the servlet context `getInstance` reads and writes: the init
   * parameters (an absent key reads as null), the "data-index" attribute, and
   * the data series name all show_info indexes share. `directories` holds the
   * paths whose `File.listFiles` gives a listing: existing, readable
   * directories.
   */
  datatype Context = Context(params: map<string, string>, attribute: Option<Instance>, series: string,
                             directories: set<string>)

  /** `getInitParameter(key) != null && getInitParameter(key).equals(value)`. */
  predicate ParamIs(ctx: Context, key: string, value: string) {
    key in ctx.params && ctx.params[key] == value
  }

  /**
   * The filesystem index constructor as `getInstance` calls it. The arguments
   * are evaluated left to right: `new File(null)` throws for a missing
   * directory and `Integer.parseInt` for a missing or malformed period. The
   * constructor then lists the index directory, which throws when the
   * listing is null, and finally the update timer refuses a period that is
   * not positive.
   */
  function NewFilesystem(ctx: Context): (r: Result<Instance, Failure>)
    ensures r.Ok? ==> r.value.Filesystem? && r.value.index == FS.New()
    ensures r.Ok? <==>
              "root-data-directory" in ctx.params && "index-directory" in ctx.params &&
              "index-log-directory" in ctx.params && "update-interval" in ctx.params &&
              ParseInt(ctx.params["update-interval"]).Some? &&
              ctx.params["index-directory"] in ctx.directories &&
              ParseInt(ctx.params["update-interval"]).value > 0
    ensures r.Ok? ==> r.value.updateInterval == ParseInt(ctx.params["update-interval"]).value &&
                      r.value.indexDirectory == ctx.params["index-directory"]
    ensures r.Err? && "root-data-directory" !in ctx.params ==> r.error == NullPointer
    // Every parameter present and the period readable, but no index directory to list.
    ensures ("root-data-directory" in ctx.params && "index-directory" in ctx.params &&
             "index-log-directory" in ctx.params && "update-interval" in ctx.params &&
             ParseInt(ctx.params["update-interval"]).Some? &&
             ctx.params["index-directory"] !in ctx.directories) ==> r == Err(NullPointer)
  {
    var p := ctx.params;
    if "root-data-directory" !in p || "index-directory" !in p || "index-log-directory" !in p then Err(NullPointer)
    else if "update-interval" !in p || ParseInt(p["update-interval"]).None? then Err(NumberFormat)
    else
      var interval := ParseInt(p["update-interval"]).value;
      if p["index-directory"] !in ctx.directories then Err(NullPointer)
      else if interval <= 0 then Err(IllegalArgument)
      else Ok(Filesystem(FS.New(), p["root-data-directory"], p["index-directory"], p["index-log-directory"], interval))
  }

  /** `new ShowInfoDataFileIndex(context)`: it may rename the shared series, and throws without an executable. */
  function NewShowInfo(ctx: Context): (r: (Context, Result<Instance, Failure>))
    ensures r.0.params == ctx.params && r.0.attribute == ctx.attribute
    ensures r.1.Ok? ==> r.1.value.ShowInfo?
    ensures r.1.Ok? <==> "show_info-executable" in ctx.params
  {
    var got := SI.New(ctx.params, ctx.series);
    (ctx.(series := got.0), if got.1.Ok? then Ok(ShowInfo(got.1.value)) else Err(ShowInfoFailure(got.1.error)))
  }

  /** `getInstance`: the context afterwards and the index returned. */
  function GetInstance(ctx: Context): (r: (Context, Result<Instance, Failure>))
    ensures r.0.params == ctx.params
    // Not a filesystem index type: a fresh show_info index, nothing stored.
    ensures !ParamIs(ctx, "index-type", "filesystem") ==>
              r.0.attribute == ctx.attribute && (r.1.Ok? ==> r.1.value.ShowInfo?)
    // An index already stored is returned whatever "filesystem-index" says.
    ensures ParamIs(ctx, "index-type", "filesystem") && ctx.attribute.Some? ==> r == (ctx, Ok(ctx.attribute.value))
    // Nothing stored and no filesystem index asked for: a fresh show_info index, nothing stored.
    ensures ParamIs(ctx, "index-type", "filesystem") && ctx.attribute.None? && !ParamIs(ctx, "filesystem-index", "true") ==>
              r.0.attribute.None? && (r.1.Ok? ==> r.1.value.ShowInfo?)
    // Nothing stored and a filesystem index asked for: it is built, stored and returned.
    ensures ParamIs(ctx, "index-type", "filesystem") && ctx.attribute.None? && ParamIs(ctx, "filesystem-index", "true") ==>
              r.1 == NewFilesystem(ctx) && r.0 == (if r.1.Ok? then ctx.(attribute := Some(r.1.value)) else ctx)
  {
    if ParamIs(ctx, "index-type", "filesystem") then
      if ctx.attribute.Some? then (ctx, Ok(ctx.attribute.value))
      else if ParamIs(ctx, "filesystem-index", "true") then
        var made := NewFilesystem(ctx);
        if made.Ok? then (ctx.(attribute := Some(made.value)), made) else (ctx, made)
      else NewShowInfo(ctx)
    else NewShowInfo(ctx)
  }

  /**
   * With a filesystem index type, once a call has stored an index every later
   * call returns that same index and changes nothing.
   */
  lemma GetInstanceStable(ctx: Context)
    requires ParamIs(ctx, "index-type", "filesystem")
    requires GetInstance(ctx).0.attribute.Some?
    ensures var first := GetInstance(ctx);
            GetInstance(first.0) == (first.0, Ok(first.0.attribute.value))
    ensures var first := GetInstance(ctx);
            first.1.Ok? ==> GetInstance(first.0) == first
  {
  }

  /** A show_info index is never stored: the attribute only ever receives a new filesystem index. */
  lemma ShowInfoNeverStored(ctx: Context)
    ensures var r := GetInstance(ctx);
            r.0.attribute == ctx.attribute ||
            (ctx.attribute.None? && r.1.Ok? && r.0.attribute == Some(r.1.value) &&
             r.1.value.Filesystem? && !r.1.value.index.updateComplete)
  {
  }

  /** `isUpdateComplete` of either kind: a show_info index always is, a filesystem index after its first run. */
  function IsUpdateComplete(i: Instance): (r: bool)
    ensures i.ShowInfo? ==> r
    ensures i.Filesystem? ==> (r <==> i.index.updateComplete)
  {
    match i
    case Filesystem(index, _, _, _, _) => index.updateComplete
    case ShowInfo(s) => SI.IsUpdateComplete(s)
  }
}
