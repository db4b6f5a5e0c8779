/** The one primitive every collection speaks: a list keeps what its filters hold
    for, sorts ascending by one field and truncates. */
module Repository {

  ghost predicate Distinct<T(!new)>(s: seq<T>) {
    forall i, j :: 0 <= i < j < |s| ==> s[i] != s[j]
  }

  /** What List promises: some matching keys, in ascending order of the field, each
      at most as large as every matching key left out; all of them, unless the limit
      cut the answer. Ties may come in any order. */
  ghost predicate Listing(matching: set<string>, field: map<string, int>, limit: nat, listed: seq<string>)
    requires matching <= field.Keys
  {
    && Distinct(listed)
    && (forall id <- listed :: id in matching)
    && (forall i, j :: 0 <= i < j < |listed| ==> field[listed[i]] <= field[listed[j]])
    && (forall id <- listed, other <- matching :: other !in listed ==> field[id] <= field[other])
    && (limit == 0 || |listed| < limit ==> forall id <- matching :: id in listed)
    && (limit > 0 ==> |listed| <= limit)
  }

  /** Picks the keys one by one, smallest field first. */
  method List(matching: set<string>, field: map<string, int>, limit: nat) returns (listed: seq<string>)
    requires matching <= field.Keys
    ensures Listing(matching, field, limit, listed)
  {
    listed := [];
    var rest := matching;
    while rest != {} && (limit == 0 || |listed| < limit)
      invariant rest <= matching
      invariant Distinct(listed)
      invariant forall id <- matching :: id in listed <==> id !in rest
      invariant forall id <- listed :: id in matching
      invariant forall i, j :: 0 <= i < j < |listed| ==> field[listed[i]] <= field[listed[j]]
      invariant forall id <- listed, other <- rest :: field[id] <= field[other]
      invariant limit > 0 ==> |listed| <= limit
      decreases |rest|
    {
      var smallest := Smallest(rest, field);
      listed := listed + [smallest];
      rest := rest - {smallest};
    }
  }

  method Smallest(keys: set<string>, field: map<string, int>) returns (smallest: string)
    requires keys != {} && keys <= field.Keys
    ensures smallest in keys && forall other <- keys :: field[smallest] <= field[other]
  {
    smallest :| smallest in keys;
    var rest := keys - {smallest};
    while rest != {}
      invariant rest <= keys && smallest in keys
      invariant forall other <- keys :: other in rest || field[smallest] <= field[other]
      decreases |rest|
    {
      var other :| other in rest;
      if field[other] < field[smallest] {
        smallest := other;
      }
      rest := rest - {other};
    }
  }
}
