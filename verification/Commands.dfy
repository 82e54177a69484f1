/** Value semantics, options and commands: what the parser is configured with. */
module Commands {
  import opened Optionals
  import Numbers

  datatype AnyValue =
    | BoolValue(flag: bool)
    | IntegerValue(number: int)
    | StringValue(text: string)

  datatype ProvidedValue = ProvidedValue(value: AnyValue, text: string)

  /** How an option treats its value: the text parser of its type, the value used
      when the option comes without one, and the value used when it does not come. */
  datatype ValueSemantics = ValueSemantics(
    parse: string -> Optional<AnyValue>,
    implicitValue: Optional<ProvidedValue>,
    defaultValue: Optional<ProvidedValue>,
    repeatable: bool)
  {
    /** An explicit value is required exactly when there is no implicit one. */
    predicate IsRequired() {
      implicitValue.Absent?
    }
  }

  function FlagParser(): string -> Optional<AnyValue> {
    s => match Numbers.ParseFlag(s)
      case Present(flag) => Present(BoolValue(flag))
      case Absent => Absent
  }

  function SignedParser(width: Numbers.Width): string -> Optional<AnyValue> {
    s => match Numbers.NumberConversion(width, s)
      case Present(number) => Present(IntegerValue(number))
      case Absent => Absent
  }

  function UnsignedParser(width: Numbers.Width): string -> Optional<AnyValue> {
    s => match Numbers.UnsignedNumberConversion(width, s)
      case Present(number) => Present(IntegerValue(number))
      case Absent => Absent
  }

  function StringParser(): string -> Optional<AnyValue> {
    s => Present(StringValue(s))
  }

  const KEY_REST := "_REST_"

  datatype Option = Option(
    key: string,
    shortName: string,
    longName: string,
    required: bool,
    semantics: ValueSemantics)
  {
    predicate IsPositional() {
      longName == "" && shortName == ""
    }

    predicate IsPositionalRest() {
      IsPositional() && key == KEY_REST
    }
  }

  datatype Command = Command(path: seq<string>, options: seq<Option>, positionals: seq<Option>)
  {
    predicate IsDefault() {
      path == [""]
    }

    /** The first option with this short name. */
    function FindShortOption(name: string): (found: Optional<Option>)
      ensures found.Present? ==> found.value in options && found.value.shortName == name
      ensures found.Absent? ==> forall o :: o in options ==> o.shortName != name
    {
      FindShort(options, name)
    }

    /** The first option with this long name. */
    function FindLongOption(name: string): (found: Optional<Option>)
      ensures found.Present? ==> found.value in options && found.value.longName == name
      ensures found.Absent? ==> forall o :: o in options ==> o.longName != name
    {
      FindLong(options, name)
    }
  }

  function FindShort(options: seq<Option>, name: string): (found: Optional<Option>)
    ensures found.Present? ==> found.value in options && found.value.shortName == name
    ensures found.Absent? ==> forall o :: o in options ==> o.shortName != name
  {
    if options == [] then Absent
    else if options[0].shortName == name then Present(options[0])
    else FindShort(options[1..], name)
  }

  function FindLong(options: seq<Option>, name: string): (found: Optional<Option>)
    ensures found.Present? ==> found.value in options && found.value.longName == name
    ensures found.Absent? ==> forall o :: o in options ==> o.longName != name
  {
    if options == [] then Absent
    else if options[0].longName == name then Present(options[0])
    else FindLong(options[1..], name)
  }

  /** Of several options with the same name, the one declared first is found. */
  lemma {:induction false} FindShortIsFirst(options: seq<Option>, name: string, i: nat)
    requires i < |options| && options[i].shortName == name
    requires forall j :: 0 <= j < i ==> options[j].shortName != name
    ensures FindShort(options, name) == Present(options[i])
    decreases i
  {
    if i > 0 {
      FindShortIsFirst(options[1..], name, i - 1);
    }
  }

  lemma {:induction false} FindLongIsFirst(options: seq<Option>, name: string, i: nat)
    requires i < |options| && options[i].longName == name
    requires forall j :: 0 <= j < i ==> options[j].longName != name
    ensures FindLong(options, name) == Present(options[i])
    decreases i
  {
    if i > 0 {
      FindLongIsFirst(options[1..], name, i - 1);
    }
  }
}
