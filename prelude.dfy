/** Small shared vocabulary: optional values, Python truthiness of optional
    fields, and the string and list operations the RBAC code uses. */
module Prelude {

  datatype Option<T> = None | Some(value: T)

  /** Python's `if x.parent_id:` on an optional integer id: `None` and `0`
      are both false. */
  predicate TruthyId(id: Option<int>) {
    id.Some? && id.value != 0
  }

  /** Python's `if parent_name:` on an optional string: `None` and `""` are
      both false. */
  predicate TruthyName(name: Option<string>) {
    name.Some? && name.value != ""
  }

  /** `s.startswith(prefix)` */
  predicate StartsWith(s: string, prefix: string) {
    prefix <= s
  }

  /** `s.endswith(suffix)` */
  predicate EndsWith(s: string, suffix: string) {
    |suffix| <= |s| && s[|s| - |suffix|..] == suffix
  }

  /** Python's `list(s)` for a set: every element once, in no particular
      order. */
  method ListFrom<T>(s: set<T>) returns (xs: seq<T>)
    ensures forall x :: x in xs <==> x in s
    ensures |xs| == |s|
  {
    xs := [];
    var rest := s;
    while rest != {}
      invariant rest <= s
      invariant forall x :: x in xs <==> x in s - rest
      invariant |xs| + |rest| == |s|
      decreases |rest|
    {
      var x :| x in rest;
      xs := xs + [x];
      rest := rest - {x};
    }
  }
}
