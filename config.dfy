/**
 * The configuration store the watchdog reads its settings from. The store
 * itself (file and command-line parsing) lives in config_linux.h, which is
 * not part of this model; here it is an abstract map from keys to values,
 * with the integer and boolean readings kept as their own maps.
 */
module Config {
  import opened Wrappers
  import Text

  datatype Store = Store(strings: map<string, string>, integers: map<string, int>, booleans: map<string, bool>)

  /** `config_get_string(key, NULL)`: the value, or NULL (None) when the key is absent. */
  function GetString(st: Store, key: string): Option<string> {
    if key in st.strings then Some(st.strings[key]) else None
  }

  /** `config_get_string(key, default)`. */
  function GetStringOr(st: Store, key: string, default: string): string {
    if key in st.strings then st.strings[key] else default
  }

  /** `config_get_integer(key, default)`. */
  function GetInteger(st: Store, key: string, default: int): int {
    if key in st.integers then st.integers[key] else default
  }

  /** `config_get_bool(key, default)`. */
  function GetBool(st: Store, key: string, default: bool): bool {
    if key in st.booleans then st.booleans[key] else default
  }

  /** The per-topic key `topic.<i>.<field>` built with `snprintf(buffer, 64, "topic.%d.name", i)`. */
  function TopicKey(i: nat, field: string): string {
    "topic." + Text.NatToDecimal(i) + "." + field
  }

  /** Distinct topic indices read distinct keys, so each configured topic has its own settings. */
  lemma TopicKeyInjective(i: nat, j: nat, field: string)
    requires TopicKey(i, field) == TopicKey(j, field)
    ensures i == j
  {
    var di, dj := Text.NatToDecimal(i), Text.NatToDecimal(j);
    var a, b := di + "." + field, dj + "." + field;
    assert TopicKey(i, field) == "topic." + a;
    assert TopicKey(j, field) == "topic." + b;
    assert a == TopicKey(i, field)[6..] == b;
    if |di| != |dj| {
      assert false;
    }
    assert di == a[..|di|] == b[..|dj|] == dj;
    Text.DecimalInjective(i, j);
  }
}
