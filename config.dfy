/**
 * The window configuration of `config.go`: two fields read from YAML, and
 * the validation that turns a parsed value into an accepted configuration
 * or an error.
 */
module Yasp {
  import opened GoInt
  import opened Wrappers

  newtype byte = b: int | 0 <= b < 256

  datatype Config = Config(WinWidth: Int64, WinHeight: Int64) {

    /** The first rule the configuration breaks, width before height; `None` when it breaks none. */
    function Valid(): (err: Option<ConfigError>)
      ensures err == Some(BadWidth) <==> WinWidth <= 0
      ensures err == Some(BadHeight) <==> WinWidth > 0 && WinHeight <= 0
      ensures err == None <==> WinWidth > 0 && WinHeight > 0
    {
      if WinWidth <= 0 then Some(BadWidth)
      else if WinHeight <= 0 then Some(BadHeight)
      else None
    }
  }

  datatype ConfigError =
    | BadWidth
    | BadHeight
    | YamlError(msg: string)
  {
    /** The text `err.Error()` gives. */
    function Error(): (text: string)
      ensures BadWidth? ==> text == "invalid WinWidth"
      ensures BadHeight? ==> text == "invalid WinHeight"
      ensures YamlError? ==> text == msg
    {
      match this
      case BadWidth => "invalid WinWidth"
      case BadHeight => "invalid WinHeight"
      case YamlError(msg) => msg
    }
  }

  /**
   * Parse, then validate. `unmarshal` stands for `yaml.Unmarshal` into a zero
   * Config: it either fails with a message or yields the decoded value.
   */
  function LoadConfig(yamlBytes: seq<byte>, unmarshal: seq<byte> -> Result<Config, string>): (r: Result<Config, ConfigError>)
    ensures r.Success? <==> unmarshal(yamlBytes).Success? && unmarshal(yamlBytes).value.Valid() == None
    ensures r.Success? ==> r.value == unmarshal(yamlBytes).value
    ensures unmarshal(yamlBytes).Failure? ==> r == Failure(YamlError(unmarshal(yamlBytes).error))
    ensures unmarshal(yamlBytes).Success? && unmarshal(yamlBytes).value.Valid().Some? ==>
              r == Failure(unmarshal(yamlBytes).value.Valid().value)
  {
    match unmarshal(yamlBytes)
    case Failure(msg) => Failure(YamlError(msg))
    case Success(c) =>
      match c.Valid()
      case Some(err) => Failure(err)
      case None => Success(c)
  }

  /** Both dimensions non-positive: the width is reported, as it is checked first. */
  lemma WidthCheckedFirst(c: Config)
    requires c.WinWidth <= 0 && c.WinHeight <= 0
    ensures c.Valid() == Some(BadWidth) && c.Valid().value.Error() == "invalid WinWidth"
  {
  }

  /** The validation table of the source's tests. */
  lemma ValidCases()
    ensures Config(-1, 1).Valid() == Some(BadWidth)
    ensures Config(1, -1).Valid() == Some(BadHeight)
    ensures Config(1, 1).Valid() == None
  {
  }

  /** Empty YAML decodes to the zero Config, which is rejected for its width. */
  lemma EmptyInputRejected(unmarshal: seq<byte> -> Result<Config, string>)
    requires unmarshal([]) == Success(Config(0, 0))
    ensures LoadConfig([], unmarshal) == Failure(BadWidth)
    ensures LoadConfig([], unmarshal).error.Error() == "invalid WinWidth"
  {
  }

  /** A well-formed file with positive dimensions comes back exactly as decoded. */
  lemma ValidInputRoundTrips(yamlBytes: seq<byte>, unmarshal: seq<byte> -> Result<Config, string>)
    requires unmarshal(yamlBytes) == Success(Config(10, 20))
    ensures LoadConfig(yamlBytes, unmarshal) == Success(Config(10, 20))
  {
  }
}
