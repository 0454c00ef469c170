/**
 The service tag of a public IP: a comma-separated list of the services that use it
 (pkg/provider/azure_loadbalancer.go).
 */
module ServiceTags {
  import opened Lists

  // ---------- Texts ----------

  predicate IsSpace(c: char) {
    c == ' ' || '\t' <= c <= '\r' || c == '\U{85}' || c == '\U{a0}'
  }

  predicate Trimmed(s: string) {
    s != "" ==> !IsSpace(s[0]) && !IsSpace(s[|s| - 1])
  }

  /** strings.TrimSpace. */
  function TrimSpace(s: string): (r: string)
    ensures Trimmed(r) && (Trimmed(s) ==> r == s)
    ensures forall c :: c in r ==> c in s
  {
    if s == "" then ""
    else if IsSpace(s[0]) then TrimSpace(s[1..])
    else if IsSpace(s[|s| - 1]) then TrimSpace(s[..|s| - 1])
    else s
  }

  /** The texts between commas. */
  function Split(s: string): (r: seq<string>)
    ensures r != []
    ensures forall f :: f in r ==> ',' !in f
  {
    if s == "" then [""]
    else
      var n := |s| - 1;
      var r := Split(s[..n]);
      if s[n] == ',' then r + [""] else r[..|r| - 1] + [r[|r| - 1] + [s[n]]]
  }

  predicate NonEmpty(s: string) {
    s != ""
  }

  function TrimAll(fs: seq<string>): (r: seq<string>)
    ensures |r| == |fs|
  {
    seq(|fs|, i requires 0 <= i < |fs| => TrimSpace(fs[i]))
  }

  /** parsePIPServiceTag: strings.FieldsFunc never yields an empty field. */
  function Parse(tag: string): seq<string> {
    TrimAll(Filter(Split(tag), NonEmpty))
  }

  /** strings.Join with a comma. */
  function Join(names: seq<string>): string {
    if names == [] then ""
    else if |names| == 1 then names[0]
    else Join(names[..|names| - 1]) + "," + names[|names| - 1]
  }

  /** A name that survives being written to a tag. */
  predicate Plain(name: string) {
    name != "" && ',' !in name && Trimmed(name)
  }

  lemma {:induction false} SplitAppend(s: string, name: string)
    requires ',' !in name
    ensures Split(s + "," + name) == Split(s) + [name]
  {
    var t := s + "," + name;
    var n := |t| - 1;
    if name == "" {
      assert t[..n] == s;
    } else {
      var k := |name| - 1;
      SplitAppend(s, name[..k]);
      assert t[..n] == s + "," + name[..k];
      assert name[..k] + [name[k]] == name;
      assert Split(t[..n]) == Split(s) + [name[..k]];
    }
  }

  lemma {:induction false} SplitWhole(name: string)
    requires ',' !in name
    ensures Split(name) == [name]
  {
    if name != "" {
      var k := |name| - 1;
      SplitWhole(name[..k]);
      assert name[..k] + [name[k]] == name;
    }
  }

  /** Appending a name to a tag appends it to the list. */
  lemma ParseAppend(tag: string, name: string)
    requires Plain(name)
    ensures Parse(tag + "," + name) == Parse(tag) + [name]
  {
    SplitAppend(tag, name);
    FilterSnoc(Split(tag), name, NonEmpty);
    var fs := Filter(Split(tag), NonEmpty);
    assert TrimAll(fs + [name]) == TrimAll(fs) + [name];
  }

  lemma ParseWhole(name: string)
    requires Plain(name)
    ensures Parse(name) == [name]
  {
    SplitWhole(name);
    assert [name][1..] == [];
    assert Filter([name], NonEmpty) == [name];
    assert TrimAll([name]) == [name];
  }

  lemma ParseEmpty()
    ensures Parse("") == []
  {
  }

  /** Writing a list of names and reading it back. */
  lemma {:induction false} ParseJoin(names: seq<string>)
    requires forall n :: n in names ==> Plain(n)
    ensures Parse(Join(names)) == names
  {
    if names == [] {
      ParseEmpty();
    } else {
      var k := |names| - 1;
      assert names == names[..k] + [names[k]];
      if k == 0 {
        ParseWhole(names[0]);
      } else {
        ParseJoin(names[..k]);
        ParseAppend(Join(names[..k]), names[k]);
      }
    }
  }

  lemma {:induction false} TrimsFront(spaces: string, name: string)
    requires name != "" && Trimmed(name) && forall c :: c in spaces ==> IsSpace(c)
    ensures TrimSpace(spaces + name) == name
  {
    if spaces == "" {
      assert spaces + name == name;
    } else {
      assert (spaces + name)[1..] == spaces[1..] + name;
      TrimsFront(spaces[1..], name);
    }
  }

  lemma {:induction false} TrimsBack(name: string, spaces: string)
    requires name != "" && Trimmed(name) && forall c :: c in spaces ==> IsSpace(c)
    ensures TrimSpace(name + spaces) == name
  {
    if spaces == "" {
      assert name + spaces == name;
    } else {
      var n := |spaces| - 1;
      assert (name + spaces)[..|name + spaces| - 1] == name + spaces[..n];
      TrimsBack(name, spaces[..n]);
    }
  }

  /** Names written with spaces after the commas, by hand say, are read without them. */
  lemma ParseSpaced(tag: string, spaces: string, name: string)
    requires Plain(name) && forall c :: c in spaces ==> IsSpace(c)
    ensures Parse(tag + "," + (spaces + name)) == Parse(tag) + [name]
    ensures Parse(tag + "," + (name + spaces)) == Parse(tag) + [name]
  {
    var fs := Filter(Split(tag), NonEmpty);
    assert forall c :: c in spaces ==> c != ',';
    SplitAppend(tag, spaces + name);
    FilterSnoc(Split(tag), spaces + name, NonEmpty);
    TrimsFront(spaces, name);
    assert TrimAll(fs + [spaces + name]) == TrimAll(fs) + [name];
    SplitAppend(tag, name + spaces);
    FilterSnoc(Split(tag), name + spaces, NonEmpty);
    TrimsBack(name, spaces);
    assert TrimAll(fs + [name + spaces]) == TrimAll(fs) + [name];
  }
}
