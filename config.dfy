/**
 * `load_config` (config.py): a copy of the default configuration, with the four settings
 * the command line can give overwritten when the given value is truthy.
 */
module Config {
  import opened Wrappers

  /** A configuration value: a path or text, a number, or a list of names. */
  datatype Value = Text(text: string) | Number(n: int) | Names(names: seq<string>)

  /** The keys of the configuration dictionary. */
  datatype Key = InputFile | OutputDir | BoundaryFile | HexSize | TargetDistricts | AmapTiles | AmapAttr

  type Configuration = map<Key, Value>

  /** The parsed command line; `None` for an option that was not given. */
  datatype Args = Args(inputFile: Option<string>, outputDir: Option<string>, boundaryFile: Option<string>, hexSize: Option<int>)

  const DefaultHexSize: int := 500

  const AmapTilesUrl: string :=
    "http://webrd02.is.autonavi.com/appmaptile?lang=zh_cn&size=1&scale=1&style=7&x={x}&y={y}&z={z}"

  /** `os.path.join(a, b)` on POSIX: an absolute `b` replaces `a`, otherwise one separator joins them. */
  function JoinPath(a: string, b: string): string {
    if |b| > 0 && b[0] == '/' then b
    else if a == "" || a[|a| - 1] == '/' then a + b
    else a + "/" + b
  }

  /**
   * An absolute second part replaces the first; otherwise the first part is a prefix, the
   * second a suffix, and a separator lies between them exactly when the first does not end in one.
   */
  lemma JoinPathSpec(a: string, b: string)
    ensures |b| > 0 && b[0] == '/' ==> JoinPath(a, b) == b
    ensures !(|b| > 0 && b[0] == '/') ==>
      var p := JoinPath(a, b);
      && a <= p && |b| <= |p| && p[|p| - |b|..] == b
      && |p| == |a| + |b| + (if a == "" || a[|a| - 1] == '/' then 0 else 1)
  {
    var p := JoinPath(a, b);
    if !(|b| > 0 && b[0] == '/') && !(a == "" || a[|a| - 1] == '/') {
      assert p == a + ("/" + b);
    }
  }

  /** `DEFAULT_CONFIG`, with the working directory `cwd` as a parameter. */
  function DefaultConfig(cwd: string): Configuration {
    map[
      InputFile := Text(JoinPath(JoinPath(cwd, "data"), "combined_data.xlsx")),
      OutputDir := Text(JoinPath(cwd, "output")),
      BoundaryFile := Text(JoinPath(JoinPath(cwd, "data"), "beijing_districts.geojson")),
      HexSize := Number(DefaultHexSize),
      TargetDistricts := Names(["海淀区", "朝阳区", "东城区", "西城区", "石景山区", "丰台区"]),
      AmapTiles := Text(AmapTilesUrl),
      AmapAttr := Text("高德地图")
    ]
  }

  /** The options the command line can override. */
  const CommandLineKeys: set<Key> := {InputFile, OutputDir, BoundaryFile, HexSize}

  /** Python truthiness: a missing option or an empty string is false. */
  predicate TruthyText(o: Option<string>) {
    o.Some? && o.value != ""
  }

  /** Python truthiness: a missing option or 0 is false. */
  predicate TruthyNumber(o: Option<int>) {
    o.Some? && o.value != 0
  }

  /** The value a key ends up with: the command-line value when truthy, the default otherwise. */
  function Chosen(o: Option<string>, default: Value): Value {
    if TruthyText(o) then Text(o.value) else default
  }

  /**
   * The source's sequence of `if args.x: config[k] = args.x`. The result has exactly the
   * default keys; each of the four command-line settings takes a truthy value from the
   * command line and the default otherwise (so an empty path or a hex size of 0 keeps the
   * default); every other setting is the default.
   */
  method LoadConfig(args: Args, cwd: string) returns (config: Configuration)
    ensures config.Keys == DefaultConfig(cwd).Keys
    ensures config[InputFile] == Chosen(args.inputFile, DefaultConfig(cwd)[InputFile])
    ensures config[OutputDir] == Chosen(args.outputDir, DefaultConfig(cwd)[OutputDir])
    ensures config[BoundaryFile] == Chosen(args.boundaryFile, DefaultConfig(cwd)[BoundaryFile])
    ensures config[HexSize] == if TruthyNumber(args.hexSize) then Number(args.hexSize.value) else Number(DefaultHexSize)
    ensures forall k :: k in config && k !in CommandLineKeys ==> config[k] == DefaultConfig(cwd)[k]
  {
    config := DefaultConfig(cwd);
    if TruthyText(args.inputFile) {
      config := config[InputFile := Text(args.inputFile.value)];
    }
    if TruthyText(args.outputDir) {
      config := config[OutputDir := Text(args.outputDir.value)];
    }
    if TruthyText(args.boundaryFile) {
      config := config[BoundaryFile := Text(args.boundaryFile.value)];
    }
    if TruthyNumber(args.hexSize) {
      config := config[HexSize := Number(args.hexSize.value)];
    }
  }
}
