/** Naming the parameters of generated functions: each gets a name of its own and an alias of
    its own, by appending a suffix for as long as the candidate is taken. */
module UniqueNames {
  import opened Lists
  import opened RpcIds

  /** Upper camel casing is done outside. `alnum` tells which characters count as letters and
      digits there. */
  datatype Casing = Casing(camel: string -> string, alnum: char -> bool)

  predicate HasAlnum(alnum: char -> bool, s: string) {
    exists i :: 0 <= i < |s| && alnum(s[i])
  }

  /** What is assumed of the casing: something is left of a name with a letter or digit. */
  ghost predicate Sound(casing: Casing) {
    && (forall c :: IsDigit(c) ==> casing.alnum(c)) && !casing.alnum('_')
    && (forall s :: HasAlnum(casing.alnum, s) ==> casing.camel(s) != "")
  }

  function StripUnderscores(s: string): string {
    if s != "" && s[0] == '_' then StripUnderscores(s[1..]) else s
  }

  // ---- appending until free ----

  /** What is taken off are the underscores in front, all of them and nothing else. */
  lemma {:induction false} StrippedExactly(s: string) returns (k: nat)
    ensures k <= |s| && StripUnderscores(s) == s[k..]
    ensures (forall i :: 0 <= i < k ==> s[i] == '_') && (k < |s| ==> s[k] != '_')
  {
    if s != "" && s[0] == '_' {
      var rest := StrippedExactly(s[1..]);
      k := rest + 1;
      assert s[1..][rest..] == s[k..];
    } else {
      k := 0;
    }
  }

  function AtLeast(taken: set<string>, n: nat): set<string> {
    set s | s in taken && |s| >= n
  }

  /** The loop ends because each taken candidate is shorter than every later one. */
  lemma FewerAtLeast(taken: set<string>, name: string, suffix: string)
    requires name in taken && suffix != ""
    ensures |AtLeast(taken, |name + suffix|)| < |AtLeast(taken, |name|)|
  {
    var longer, all := AtLeast(taken, |name + suffix|), AtLeast(taken, |name|);
    assert longer <= all - {name};
    SubsetSize(longer, all - {name});
  }

  function Unique(taken: set<string>, name: string, suffix: string): (r: string)
    requires suffix != ""
    ensures r !in taken && name <= r
    decreases |AtLeast(taken, |name|)|
  {
    if name !in taken then name
    else
      FewerAtLeast(taken, name, suffix);
      Unique(taken, name + suffix, suffix)
  }

  function Appended(name: string, suffix: string, k: nat): string {
    if k == 0 then name else Appended(name, suffix, k - 1) + suffix
  }

  lemma {:induction false} AppendedFirst(name: string, suffix: string, k: nat)
    ensures Appended(name, suffix, k + 1) == Appended(name + suffix, suffix, k)
  {
    if k > 0 {
      AppendedFirst(name, suffix, k - 1);
    }
  }

  /** `k` is the number of renames, and the least that leads to a free name. */
  ghost predicate RenamedTimes(taken: set<string>, name: string, suffix: string, k: nat, r: string) {
    && r == Appended(name, suffix, k) && r !in taken
    && forall j :: 0 <= j < k ==> Appended(name, suffix, j) in taken
  }

  /** At most one rename for each taken name. */
  lemma {:induction false} RenameCount(taken: set<string>, name: string, suffix: string) returns (k: nat)
    requires suffix != ""
    ensures RenamedTimes(taken, name, suffix, k, Unique(taken, name, suffix))
    ensures k <= |AtLeast(taken, |name|)| <= |taken|
    decreases |AtLeast(taken, |name|)|
  {
    SubsetSize(AtLeast(taken, |name|), taken);
    if name !in taken {
      k := 0;
    } else {
      FewerAtLeast(taken, name, suffix);
      var rest := RenameCount(taken, name + suffix, suffix);
      k := rest + 1;
      AppendedFirst(name, suffix, rest);
      forall j | 0 <= j < k
        ensures Appended(name, suffix, j) in taken
      {
        if j > 0 {
          AppendedFirst(name, suffix, j - 1);
        }
      }
    }
  }

  // ---- all parameters ----

  function Elements(names: seq<string>): set<string> {
    set x | x in names
  }

  function BaseName(input: string, idx: nat): string {
    var name := StripUnderscores(input);
    if name == "" then "_" + Decimal(idx) else name
  }

  function Names(inputs: seq<string>): (names: seq<string>)
    ensures |names| == |inputs|
  {
    if inputs == [] then []
    else
      var n := |inputs| - 1;
      var earlier := Names(inputs[..n]);
      earlier + [Unique(Elements(earlier), BaseName(inputs[n], n), "_param" + Decimal(n))]
  }

  /** The runtime API generator trims underscores off before casing, the view function
      generator does not. */
  function CamelName(casing: Casing, trims: bool, name: string): string {
    casing.camel(if trims then StripUnderscores(name) else name)
  }

  function AliasBase(casing: Casing, trims: bool, name: string): string {
    var alias := CamelName(casing, trims, name);
    if alias != "" && IsDigit(alias[0]) then "Param" + alias else alias
  }

  function Aliases(casing: Casing, trims: bool, names: seq<string>): (aliases: seq<string>)
    ensures |aliases| == |names|
  {
    if names == [] then []
    else
      var n := |names| - 1;
      var earlier := Aliases(casing, trims, names[..n]);
      earlier + [Unique(Elements(earlier), AliasBase(casing, trims, names[n]), "Param" + Decimal(n))]
  }

  // ---- the loops ----

  lemma NamesSnoc(inputs: seq<string>, i: nat)
    requires i < |inputs|
    ensures Names(inputs[..i + 1])
         == Names(inputs[..i]) + [Unique(Elements(Names(inputs[..i])), BaseName(inputs[i], i), "_param" + Decimal(i))]
  {
    assert inputs[..i + 1][..i] == inputs[..i];
  }

  lemma AliasesSnoc(casing: Casing, trims: bool, names: seq<string>, name: string)
    ensures Aliases(casing, trims, names + [name])
         == Aliases(casing, trims, names)
            + [Unique(Elements(Aliases(casing, trims, names)), AliasBase(casing, trims, name),
                      "Param" + Decimal(|names|))]
  {
    assert (names + [name])[..|names|] == names;
  }

  lemma ElementsSnoc(names: seq<string>, name: string)
    ensures Elements(names + [name]) == Elements(names) + {name}
  {
  }

  method InsertUnique(taken: set<string>, base: string, suffix: string) returns (name: string)
    requires suffix != ""
    ensures name == Unique(taken, base, suffix)
  {
    name := base;
    while name in taken
      invariant Unique(taken, name, suffix) == Unique(taken, base, suffix)
      decreases |AtLeast(taken, |name|)|
    {
      FewerAtLeast(taken, name, suffix);
      name := name + suffix;
    }
  }

  /** The code takes the first character of every cased name, and panics when there is none. */
  predicate Nameable(casing: Casing, trims: bool, inputs: seq<string>) {
    forall i :: 0 <= i < |inputs| ==> CamelName(casing, trims, Names(inputs)[i]) != ""
  }

  lemma NextName(inputs: seq<string>, idx: nat)
    requires idx < |inputs|
    ensures
      var earlier, name := Names(inputs[..idx]), Names(inputs)[idx];
      && name == Unique(Elements(earlier), BaseName(inputs[idx], idx), "_param" + Decimal(idx))
      && Names(inputs[..idx + 1]) == earlier + [name]
  {
    hide Unique, Decimal, BaseName;
    NamesSnoc(inputs, idx);
    NamesPrefix(inputs, idx + 1);
    assert Names(inputs)[idx] == Names(inputs)[..idx + 1][idx];
  }

  method AliasOf(casing: Casing, trims: bool, taken: set<string>, name: string, idx: nat) returns (alias: string)
    requires CamelName(casing, trims, name) != ""
    ensures alias == Unique(taken, AliasBase(casing, trims, name), "Param" + Decimal(idx))
  {
    alias := CamelName(casing, trims, name);
    if IsDigit(alias[0]) {
      alias := "Param" + alias;
    }
    alias := InsertUnique(taken, alias, "Param" + Decimal(idx));
  }

  method GenerateInputs(
      casing: Casing, trims: bool, inputs: seq<string>)
    returns (names: seq<string>, aliases: seq<string>)
    requires Nameable(casing, trims, inputs)
    ensures names == Names(inputs) && aliases == Aliases(casing, trims, names)
  {
    hide Decimal, StripUnderscores;
    var uniqueNames: set<string>, uniqueAliases: set<string> := {}, {};
    names, aliases := [], [];
    for idx := 0 to |inputs|
      invariant names == Names(inputs[..idx]) && uniqueNames == Elements(names)
      invariant aliases == Aliases(casing, trims, names) && uniqueAliases == Elements(aliases)
    {
      var name := StripUnderscores(inputs[idx]);
      if name == "" {
        name := "_" + Decimal(idx);
      }
      name := InsertUnique(uniqueNames, name, "_param" + Decimal(idx));
      uniqueNames := uniqueNames + {name};
      NextName(inputs, idx);

      var alias := AliasOf(casing, trims, uniqueAliases, name, idx);
      uniqueAliases := uniqueAliases + {alias};

      AliasesSnoc(casing, trims, names, name);
      ElementsSnoc(names, name);
      ElementsSnoc(aliases, alias);
      names := names + [name];
      aliases := aliases + [alias];
    }
    assert inputs[..|inputs|] == inputs;
  }

  // ---- what the names are ----

  lemma {:induction false} NamesPrefix(inputs: seq<string>, k: nat)
    requires k <= |inputs|
    ensures Names(inputs)[..k] == Names(inputs[..k])
    decreases |inputs|
  {
    if k == |inputs| {
      assert inputs[..k] == inputs;
    } else {
      var n := |inputs| - 1;
      NamesPrefix(inputs[..n], k);
      assert inputs[..n][..k] == inputs[..k];
      assert Names(inputs)[..k] == Names(inputs[..n])[..k];
    }
  }

  lemma {:induction false} AliasesPrefix(casing: Casing, trims: bool, names: seq<string>, k: nat)
    requires k <= |names|
    ensures Aliases(casing, trims, names)[..k] == Aliases(casing, trims, names[..k])
    decreases |names|
  {
    hide AliasBase, Unique, Decimal, Elements;
    if k == |names| {
      assert names[..k] == names;
    } else {
      var n := |names| - 1;
      AliasesPrefix(casing, trims, names[..n], k);
      assert names[..n][..k] == names[..k];
      assert Aliases(casing, trims, names)[..k] == Aliases(casing, trims, names[..n])[..k];
    }
  }

  lemma {:induction false} ElementsBound(names: seq<string>)
    ensures |Elements(names)| <= |names|
  {
    if names != [] {
      var n := |names| - 1;
      ElementsBound(names[..n]);
      assert names == names[..n] + [names[n]];
      ElementsSnoc(names[..n], names[n]);
    }
  }

  lemma DistinctSnoc(names: seq<string>, name: string)
    requires Distinct(names) && name !in Elements(names)
    ensures Distinct(names + [name])
  {
  }

  /** Main result: no two parameters share a name. */
  lemma {:induction false} NamesDistinct(inputs: seq<string>)
    ensures Distinct(Names(inputs))
    decreases |inputs|
  {
    if inputs != [] {
      var n := |inputs| - 1;
      NamesDistinct(inputs[..n]);
      DistinctSnoc(Names(inputs[..n]), Names(inputs)[n]);
    }
  }

  lemma {:induction false} AliasesDistinct(casing: Casing, trims: bool, names: seq<string>)
    ensures Distinct(Aliases(casing, trims, names))
    decreases |names|
  {
    if names != [] {
      var n := |names| - 1;
      AliasesDistinct(casing, trims, names[..n]);
      DistinctSnoc(Aliases(casing, trims, names[..n]), Aliases(casing, trims, names)[n]);
    }
  }

  /** Name `idx` is its base with the suffix appended the least number of times that makes it
      differ from the earlier names, which is at most `idx`. */
  lemma NameRenames(inputs: seq<string>, idx: nat) returns (k: nat)
    requires idx < |inputs|
    ensures k <= idx
    ensures
      var trimmed := StripUnderscores(inputs[idx]);
      RenamedTimes(Elements(Names(inputs)[..idx]), if trimmed == "" then "_" + Decimal(idx) else trimmed,
                   "_param" + Decimal(idx), k, Names(inputs)[idx])
  {
    NamesPrefix(inputs, idx);
    NamesPrefix(inputs, idx + 1);
    NamesSnoc(inputs, idx);
    var earlier := Names(inputs[..idx]);
    k := RenameCount(Elements(earlier), BaseName(inputs[idx], idx), "_param" + Decimal(idx));
    ElementsBound(earlier);
    assert Names(inputs)[idx] == Names(inputs)[..idx + 1][idx];
  }

  lemma AliasStart(casing: Casing, trims: bool, name: string)
    ensures
      var camel := casing.camel(if trims then StripUnderscores(name) else name);
      AliasBase(casing, trims, name) == if camel != "" && IsDigit(camel[0]) then "Param" + camel else camel
  {
  }

  lemma AliasRenames(casing: Casing, trims: bool, names: seq<string>, idx: nat) returns (k: nat)
    requires idx < |names|
    ensures k <= idx
    ensures
      var camel := casing.camel(if trims then StripUnderscores(names[idx]) else names[idx]);
      RenamedTimes(Elements(Aliases(casing, trims, names)[..idx]),
                   if camel != "" && IsDigit(camel[0]) then "Param" + camel else camel,
                   "Param" + Decimal(idx), k, Aliases(casing, trims, names)[idx])
  {
    hide RenamedTimes, Elements, Aliases, Decimal, StripUnderscores;
    AliasStart(casing, trims, names[idx]);
    k := AliasRenamesFrom(casing, trims, names, idx);
  }

  lemma AliasRenamesFrom(casing: Casing, trims: bool, names: seq<string>, idx: nat) returns (k: nat)
    requires idx < |names|
    ensures k <= idx
    ensures RenamedTimes(Elements(Aliases(casing, trims, names)[..idx]), AliasBase(casing, trims, names[idx]),
                         "Param" + Decimal(idx), k, Aliases(casing, trims, names)[idx])
  {
    hide Unique, AliasBase, Appended, Decimal, Aliases;
    AliasesPrefix(casing, trims, names, idx);
    AliasesPrefix(casing, trims, names, idx + 1);
    assert names[..idx + 1] == names[..idx] + [names[idx]];
    AliasesSnoc(casing, trims, names[..idx], names[idx]);
    var earlier := Aliases(casing, trims, names[..idx]);
    k := RenameCount(Elements(earlier), AliasBase(casing, trims, names[idx]), "Param" + Decimal(idx));
    ElementsBound(earlier);
    assert Aliases(casing, trims, names)[idx] == Aliases(casing, trims, names)[..idx + 1][idx];
  }

  lemma {:induction false} AppendedStarts(name: string, suffix: string, k: nat)
    ensures name <= Appended(name, suffix, k)
  {
    if k > 0 {
      AppendedStarts(name, suffix, k - 1);
    }
  }

  /** No alias starts with a digit. */
  lemma AliasStartsNoDigit(casing: Casing, trims: bool, inputs: seq<string>, idx: nat)
    requires Nameable(casing, trims, inputs) && idx < |inputs|
    ensures
      var alias := Aliases(casing, trims, Names(inputs))[idx];
      alias != "" && !IsDigit(alias[0])
  {
    var names := Names(inputs);
    var k := AliasRenames(casing, trims, names, idx);
    AppendedStarts(AliasBase(casing, trims, names[idx]), "Param" + Decimal(idx), k);
  }

  /** A name starts with a digit exactly when its input does once the underscores are off:
      such an input, `_1st` say, does not yield a valid identifier. */
  lemma NameStartsWithDigitExactlyWhen(inputs: seq<string>, idx: nat)
    requires idx < |inputs|
    ensures
      var name, trimmed := Names(inputs)[idx], StripUnderscores(inputs[idx]);
      name != "" && (IsDigit(name[0]) <==> trimmed != "" && IsDigit(trimmed[0]))
  {
    var k := NameRenames(inputs, idx);
    AppendedStarts(BaseName(inputs[idx], idx), "_param" + Decimal(idx), k);
  }

  // ---- identifiers can be named ----

  lemma {:induction false} StripKeepsAlnum(alnum: char -> bool, s: string)
    requires HasAlnum(alnum, s) && !alnum('_')
    ensures HasAlnum(alnum, StripUnderscores(s))
  {
    if s[0] == '_' {
      var i :| 0 <= i < |s| && alnum(s[i]);
      assert alnum(s[1..][i - 1]);
      StripKeepsAlnum(alnum, s[1..]);
    }
  }

  lemma PrefixHasAlnum(alnum: char -> bool, base: string, s: string)
    requires HasAlnum(alnum, base) && base <= s
    ensures HasAlnum(alnum, s)
  {
    var i :| 0 <= i < |base| && alnum(base[i]);
    assert alnum(s[i]);
  }

  lemma {:induction false} DecimalIsDigits(n: nat)
    ensures IsDigit(Decimal(n)[0])
  {
    if n >= 10 {
      DecimalIsDigits(n / 10);
    }
  }

  /** Inputs that are nothing but underscores, or hold some letter or digit, as every
      identifier does, make no alias panic. */
  lemma IdentifiersAreNameable(casing: Casing, trims: bool, inputs: seq<string>)
    requires Sound(casing)
    requires forall i :: 0 <= i < |inputs| ==> StripUnderscores(inputs[i]) == "" || HasAlnum(casing.alnum, inputs[i])
    ensures Nameable(casing, trims, inputs)
  {
    forall idx | 0 <= idx < |inputs|
      ensures CamelName(casing, trims, Names(inputs)[idx]) != ""
    {
      var name, base := Names(inputs)[idx], BaseName(inputs[idx], idx);
      var k := NameRenames(inputs, idx);
      AppendedStarts(base, "_param" + Decimal(idx), k);
      if StripUnderscores(inputs[idx]) == "" {
        DecimalIsDigits(idx);
        assert casing.alnum(base[1]);
      } else {
        StripKeepsAlnum(casing.alnum, inputs[idx]);
      }
      PrefixHasAlnum(casing.alnum, base, name);
      StripKeepsAlnum(casing.alnum, name);
    }
  }
}
