/**
 * The header bag that is rendered into the `x-smtpapi` field, as a typed
 * value instead of a free-form JSON object. Each component is None while the
 * corresponding key is absent from the JSON object, and the lazy add* helpers
 * that both copies of the builder share (creating a missing level, then
 * putting one key) are defined here once.
 */
module Headers {
  import opened JavaLib

  /** The object stored under one filter name; only its `settings` key is used. */
  datatype Filter = Filter(settings: Option<map<string, string>>)

  datatype HeaderBag = HeaderBag(
    category: Option<seq<string>>,
    sub: Option<map<string, seq<string>>>,
    section: Option<map<string, string>>,
    uniqueArgs: Option<map<string, string>>,
    filters: Option<map<string, Filter>>,
    to: Option<seq<string>>)

  /** `new JSONObject()`: no key at all. */
  const Empty: HeaderBag := HeaderBag(None, None, None, None, None, None)

  /** A map component as the helpers see it once they have created it. */
  function OrEmpty<K, V>(m: Option<map<K, V>>): map<K, V> {
    if m.Some? then m.value else map[]
  }

  /** `filters[name].settings[param]`, when every level is present. */
  function Setting(h: HeaderBag, name: string, param: string): Option<string> {
    var fs := OrEmpty(h.filters);
    if name in fs && param in OrEmpty(fs[name].settings) then Some(OrEmpty(fs[name].settings)[param]) else None
  }

  /** addSubstitution: create `sub` if absent, then put `fromValue -> toValues`. */
  function PutSubstitution(h: HeaderBag, fromValue: string, toValues: seq<string>): (r: HeaderBag)
    ensures r.sub.Some? && r.sub.value.Keys == OrEmpty(h.sub).Keys + {fromValue}
    ensures r.sub.value[fromValue] == toValues
    ensures forall k :: k in OrEmpty(h.sub) && k != fromValue ==> r.sub.value[k] == OrEmpty(h.sub)[k]
    ensures r == h.(sub := r.sub)
  {
    h.(sub := Some(OrEmpty(h.sub)[fromValue := toValues]))
  }

  /** addSection: create `section` if absent, then put `fromValue -> toValue`. */
  function PutSection(h: HeaderBag, fromValue: string, toValue: string): (r: HeaderBag)
    ensures r.section.Some? && r.section.value.Keys == OrEmpty(h.section).Keys + {fromValue}
    ensures r.section.value[fromValue] == toValue
    ensures forall k :: k in OrEmpty(h.section) && k != fromValue ==> r.section.value[k] == OrEmpty(h.section)[k]
    ensures r == h.(section := r.section)
  {
    h.(section := Some(OrEmpty(h.section)[fromValue := toValue]))
  }

  /** addUniqueArgument: create `unique_args` if absent, then put `key -> value`. */
  function PutUniqueArgument(h: HeaderBag, key: string, value: string): (r: HeaderBag)
    ensures r.uniqueArgs.Some? && r.uniqueArgs.value.Keys == OrEmpty(h.uniqueArgs).Keys + {key}
    ensures r.uniqueArgs.value[key] == value
    ensures forall k :: k in OrEmpty(h.uniqueArgs) && k != key ==> r.uniqueArgs.value[k] == OrEmpty(h.uniqueArgs)[k]
    ensures r == h.(uniqueArgs := r.uniqueArgs)
  {
    h.(uniqueArgs := Some(OrEmpty(h.uniqueArgs)[key := value]))
  }

  /**
   * addFilterSetting: create whichever of `filters`, `filters[name]` and
   * `filters[name].settings` is missing, then put `param -> value`.
   */
  function PutFilterSetting(h: HeaderBag, name: string, param: string, value: string): (r: HeaderBag)
    ensures r.filters.Some? && r.filters.value.Keys == OrEmpty(h.filters).Keys + {name}
    ensures r.filters.value[name].settings.Some?
    ensures r.filters.value[name].settings.value.Keys
         == (if name in OrEmpty(h.filters) then OrEmpty(OrEmpty(h.filters)[name].settings).Keys else {}) + {param}
    ensures Setting(r, name, param) == Some(value)
    ensures forall n, p :: (n != name || p != param) ==> Setting(r, n, p) == Setting(h, n, p)
    ensures forall n :: n in OrEmpty(h.filters) && n != name ==> r.filters.value[n] == OrEmpty(h.filters)[n]
    ensures r == h.(filters := r.filters)
  {
    var fs := OrEmpty(h.filters);
    var entry := if name in fs then fs[name] else Filter(None);
    var settings := OrEmpty(entry.settings);
    h.(filters := Some(fs[name := entry.(settings := Some(settings[param := value]))]))
  }

  /** What prepMessageData writes before rendering in header mode: `to` holds the recipients. */
  function WithRecipients(h: HeaderBag, tos: seq<string>): HeaderBag {
    h.(to := Some(tos))
  }
}
