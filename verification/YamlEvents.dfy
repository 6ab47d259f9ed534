/** The events that the YAML parser produces, the loader consumes and the dumper issues. */
module YamlEvents {
  import opened Options

  datatype Event =
    | StreamStart
    | StreamEnd
    | DocumentStart(startImplicit: bool)
    | DocumentEnd(endImplicit: bool)
    | Alias(name: string)
    | Scalar(anchor: Option<string>, tag: Option<string>, text: string, plain: bool, quoted: bool, style: nat)
    | SequenceStart(anchor: Option<string>, tag: Option<string>, implicit: bool, style: nat)
    | SequenceEnd
    | MappingStart(anchor: Option<string>, tag: Option<string>, implicit: bool, style: nat)
    | MappingEnd

  const DEFAULT_SCALAR_TAG := "tag:yaml.org,2002:str"
  const DEFAULT_SEQUENCE_TAG := "tag:yaml.org,2002:seq"
  const DEFAULT_MAPPING_TAG := "tag:yaml.org,2002:map"
}
