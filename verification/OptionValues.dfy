/** The values collected so far, by option key. */
module OptionValues {
  import opened Commands

  datatype OptionValue = OptionValue(value: AnyValue, originalToken: string, defaulted: bool)

  type ValuesMap = map<string, seq<OptionValue>>

  function ValuesAt(values: ValuesMap, key: string): seq<OptionValue> {
    if key in values then values[key] else []
  }

  function Store(values: ValuesMap, key: string, value: OptionValue): ValuesMap {
    values[key := ValuesAt(values, key) + [value]]
  }

  class OptionValuesMap {
    var values: ValuesMap

    constructor ()
      ensures values == map[]
    {
      values := map[];
    }

    method StoreValue(key: string, newValue: OptionValue)
      modifies this
      ensures values == Store(old(values), key, newValue)
    {
      if key in values {
        values := values[key := values[key] + [newValue]];
      } else {
        assert [] + [newValue] == [newValue];
        values := values[key := [newValue]];
      }
    }

    predicate HasOption(key: string)
      reads this
    {
      key in values
    }

    function OccurrencesOf(key: string): (count: nat)
      reads this
      ensures count == |ValuesAt(values, key)|
    {
      if key in values then |values[key]| else 0
    }

    function ValuesOf(key: string): seq<OptionValue>
      requires HasOption(key)
      reads this
    {
      values[key]
    }
  }
}
