/** `Config` (src/lib.rs): the processor's settings. Only `includeTag` is
    consulted by the include engine; the indent width, the multi-document
    flag and the replace tag are carried but read by nothing (`process_file`
    serializes with `serde_yaml::to_string`, which takes no settings). */
module Lib {

  datatype Config = Config(
    indentWidth: nat,
    outputMultiDocuments: bool,
    includeTag: string,
    replaceTag: string)

  /** `Config::default()` */
  function DefaultConfig(): (c: Config)
    ensures c.indentWidth == 2 && !c.outputMultiDocuments
    ensures c.includeTag == "!include" && c.replaceTag == "!replace"
    ensures c.includeTag != c.replaceTag
  {
    Config(2, false, "!include", "!replace")
  }
}
