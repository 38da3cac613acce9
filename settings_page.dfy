// The settings page's state: categories of named settings, changed one
// setting at a time by replacing the category with a copy that has the new
// value.

module SettingsPage {

  /** A setting's value: a switch, a choice or a level. */
  datatype Value = Flag(on: bool) | Choice(name: string) | Level(n: int)

  /** Category name to (setting name to value). */
  type Settings = map<string, map<string, Value>>

  /** A category's settings; spreading a missing category spreads nothing. */
  function CategoryOf(s: Settings, category: string): map<string, Value>
  {
    if category in s then s[category] else map[]
  }

  /** `handleSettingChange(category, key, value)`. */
  function Change(s: Settings, category: string, key: string, value: Value): (r: Settings)
    ensures category in r && key in r[category] && r[category][key] == value
    ensures r.Keys == s.Keys + {category}
  {
    s[category := CategoryOf(s, category)[key := value]]
  }

  /** The other settings of the category keep their values. */
  lemma ChangeKeepsOtherKeys(s: Settings, category: string, key: string, value: Value, other: string)
    requires other != key
    ensures other in CategoryOf(Change(s, category, key, value), category) <==> other in CategoryOf(s, category)
    ensures other in CategoryOf(s, category) ==> Change(s, category, key, value)[category][other] == s[category][other]
  {
  }

  /** Every other category is untouched. */
  lemma ChangeKeepsOtherCategories(s: Settings, category: string, key: string, value: Value, other: string)
    requires other != category
    ensures other in Change(s, category, key, value) <==> other in s
    ensures other in s ==> Change(s, category, key, value)[other] == s[other]
  {
  }

  /** Making the same change twice is making it once. */
  lemma ChangeIdempotent(s: Settings, category: string, key: string, value: Value)
    ensures Change(Change(s, category, key, value), category, key, value) == Change(s, category, key, value)
  {
    var m := CategoryOf(s, category)[key := value];
    assert CategoryOf(Change(s, category, key, value), category) == m;
    assert m[key := value] == m;
  }

  /** A later change of the same setting overrides an earlier one. */
  lemma ChangeOverrides(s: Settings, category: string, key: string, v1: Value, v2: Value)
    ensures Change(Change(s, category, key, v1), category, key, v2) == Change(s, category, key, v2)
  {
    var m := CategoryOf(s, category);
    assert CategoryOf(Change(s, category, key, v1), category) == m[key := v1];
    assert m[key := v1][key := v2] == m[key := v2];
  }

  /** Changes of two different settings can be made in either order. */
  lemma ChangesCommute(s: Settings, c1: string, k1: string, v1: Value, c2: string, k2: string, v2: Value)
    requires c1 != c2 || k1 != k2
    ensures Change(Change(s, c1, k1, v1), c2, k2, v2) == Change(Change(s, c2, k2, v2), c1, k1, v1)
  {
    if c1 == c2 {
      assert CategoryOf(s, c1)[k1 := v1][k2 := v2] == CategoryOf(s, c1)[k2 := v2][k1 := v1];
    }
  }
}
