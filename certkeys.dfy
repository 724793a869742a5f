/** The certificate flags: `NamedCertKey` parses `certFile,keyFile[:name,name,...]`, and
    `NamedCertKeyArray` collects one of them per flag instance. */
module CertKeyFlags {
  import opened Wrappers
  import opened GoStrings

  /** Why `Set` refused a value. */
  datatype CertKeyError =
    | EmptyNames     // "empty names list is not allowed"
    | NotCertAndKey  // "expected comma separated certificate and key file paths"

  /** The fields of a `NamedCertKey`, as a value (an element of the slice the array flag
      fills). A nil `Names` is the empty sequence. */
  datatype CertKey = CertKey(names: seq<string>, certFile: string, keyFile: string)

  /** `strings.TrimSpace` applied to every element. */
  function TrimEach(xs: seq<string>): (r: seq<string>)
    ensures |r| == |xs| && forall i :: 0 <= i < |xs| ==> r[i] == TrimSpace(xs[i])
  {
    seq(|xs|, i requires 0 <= i < |xs| => TrimSpace(xs[i]))
  }

  /** The names `Set` stores: none without a ':'; otherwise the text after the first ':',
      trimmed, split at commas, each name trimmed. */
  function NamesPart(value: string): (names: seq<string>)
    ensures ':' !in value ==> names == []
    ensures ':' in value ==> |names| >= 1 && forall i :: 0 <= i < |names| ==> Trimmed(names[i])
  {
    match Cut(value, ':')
    case None => []
    case Some(cs) => TrimEach(Split(TrimSpace(cs.1), ','))
  }

  /** The cert/key part `Set` splits: the text before the first ':' (all of it without
      one), trimmed. It holds no ':' and has no surrounding space. */
  function KeyCertPart(value: string): (kc: string)
    ensures Trimmed(kc) && ':' !in kc
  {
    match Cut(value, ':')
    case None => TrimSpaceKeepsOut(value, ':'); TrimSpace(value)
    case Some(cs) => TrimSpaceKeepsOut(cs.0, ':'); TrimSpace(cs.0)
  }

  /** What `Set` makes of a value. */
  function ParseCertKey(value: string): (r: Result<CertKey, CertKeyError>)
    ensures r == Err(EmptyNames) <==> ':' in value && TrimSpace(Cut(value, ':').value.1) == ""
    ensures r != Err(EmptyNames) ==> (r.Ok? <==> |Split(KeyCertPart(value), ',')| == 2)
    ensures r.Ok? ==> r.value.names == NamesPart(value)
    ensures r.Ok? ==> r.value.certFile == TrimSpace(Split(KeyCertPart(value), ',')[0])
    ensures r.Ok? ==> r.value.keyFile == TrimSpace(Split(KeyCertPart(value), ',')[1])
    ensures r.Ok? ==> ',' !in r.value.certFile && ',' !in r.value.keyFile
  {
    var cs := Cut(value, ':');
    if cs.Some? && TrimSpace(cs.value.1) == "" then Err(EmptyNames)
    else
      var parts := Split(KeyCertPart(value), ',');
      if |parts| != 2 then Err(NotCertAndKey)
      else
        TrimSpaceKeepsOut(parts[0], ',');
        TrimSpaceKeepsOut(parts[1], ',');
        Ok(CertKey(NamesPart(value), TrimSpace(parts[0]), TrimSpace(parts[1])))
  }

  /** `NamedCertKey.String`: `certFile,keyFile`, then `:` and the names joined with commas
      when there are any. */
  function Render(c: CertKey): (text: string)
    ensures c.certFile + "," + c.keyFile <= text
    ensures c.names == [] <==> text == c.certFile + "," + c.keyFile
  {
    c.certFile + "," + c.keyFile + (if |c.names| > 0 then ":" + Join(c.names, ",") else "")
  }

  /** Values whose text survives `Render` and `ParseCertKey`: no file name holds a comma or
      a ':', no name holds a comma, nothing has surrounding space, and the names are not
      the single empty name (which would render as an empty list). */
  predicate RoundTrips(c: CertKey) {
    && ',' !in c.certFile && ':' !in c.certFile && Trimmed(c.certFile)
    && ',' !in c.keyFile && ':' !in c.keyFile && Trimmed(c.keyFile)
    && (forall i :: 0 <= i < |c.names| ==> ',' !in c.names[i] && Trimmed(c.names[i]))
    && c.names != [""]
  }

  lemma TrimmedAroundComma(a: string, b: string)
    requires Trimmed(a) && Trimmed(b)
    ensures Trimmed(a + "," + b)
  {
    var s := a + "," + b;
    assert s[0] == if |a| > 0 then a[0] else ',';
    assert s[|s| - 1] == if |b| > 0 then b[|b| - 1] else ',';
  }

  lemma {:induction false} JoinTrimmed(xs: seq<string>)
    requires forall i :: 0 <= i < |xs| ==> Trimmed(xs[i])
    ensures Trimmed(Join(xs, ","))
  {
    if |xs| > 1 {
      JoinTrimmed(xs[1..]);
      TrimmedAroundComma(xs[0], Join(xs[1..], ","));
    }
  }

  /** The names of a value read back from its rendering. */
  lemma NamesRoundTrip(names: seq<string>)
    requires |names| > 0 && names != [""]
    requires forall i :: 0 <= i < |names| ==> ',' !in names[i] && Trimmed(names[i])
    ensures TrimSpace(Join(names, ",")) == Join(names, ",") != ""
    ensures TrimEach(Split(Join(names, ","), ',')) == names
  {
    JoinTrimmed(names);
    TrimSpaceOfTrimmed(Join(names, ","));
    JoinNotEmpty(names);
    SplitJoin(names, ',');
    TrimEachOfTrimmed(names);
  }

  lemma JoinNotEmpty(names: seq<string>)
    requires |names| > 0 && names != [""]
    ensures Join(names, ",") != ""
  {
    if |names| == 1 {
      assert names == [names[0]];
    } else {
      assert |Join(names, ",")| >= 1;
    }
  }

  lemma TrimEachOfTrimmed(names: seq<string>)
    requires forall i :: 0 <= i < |names| ==> Trimmed(names[i])
    ensures TrimEach(names) == names
  {
    forall i | 0 <= i < |names| ensures TrimSpace(names[i]) == names[i] {
      TrimSpaceOfTrimmed(names[i]);
    }
  }

  /** The certificate and key files of a value read back from its rendering. */
  lemma FilesRoundTrip(certFile: string, keyFile: string)
    requires ',' !in certFile && Trimmed(certFile) && ',' !in keyFile && Trimmed(keyFile)
    ensures TrimSpace(certFile + "," + keyFile) == certFile + "," + keyFile
    ensures Split(certFile + "," + keyFile, ',') == [certFile, keyFile]
    ensures TrimSpace(certFile) == certFile && TrimSpace(keyFile) == keyFile
  {
    TrimmedAroundComma(certFile, keyFile);
    TrimSpaceOfTrimmed(certFile + "," + keyFile);
    assert Join([certFile, keyFile], [',']) == certFile + "," + keyFile;
    SplitJoin([certFile, keyFile], ',');
    TrimSpaceOfTrimmed(certFile);
    TrimSpaceOfTrimmed(keyFile);
  }

  /** Setting a flag to the `String()` of a value gives that value back. */
  lemma ParseRender(c: CertKey)
    requires RoundTrips(c)
    ensures ParseCertKey(Render(c)) == Ok(c)
  {
    var files := c.certFile + "," + c.keyFile;
    assert ':' !in files;
    FilesRoundTrip(c.certFile, c.keyFile);
    if |c.names| > 0 {
      ParseRenderNamed(c, files);
    } else {
      assert Render(c) == files;
    }
  }

  lemma ParseRenderNamed(c: CertKey, files: string)
    requires RoundTrips(c) && |c.names| > 0
    requires files == c.certFile + "," + c.keyFile && ':' !in files
    requires TrimSpace(files) == files && Split(files, ',') == [c.certFile, c.keyFile]
    requires TrimSpace(c.certFile) == c.certFile && TrimSpace(c.keyFile) == c.keyFile
    ensures ParseCertKey(Render(c)) == Ok(c)
  {
    var joined := Join(c.names, ",");
    var text := Render(c);
    assert text == files + [':'] + joined;
    assert Cut(text, ':') == Some((files, joined)) by {
      CutAt(files, ':', joined);
    }
    assert TrimSpace(joined) == joined != "" && TrimEach(Split(joined, ',')) == c.names by {
      NamesRoundTrip(c.names);
    }
    assert KeyCertPart(text) == files;
    assert NamesPart(text) == c.names;
    assert Split(KeyCertPart(text), ',') == [c.certFile, c.keyFile];
    assert ParseCertKey(text) == Ok(CertKey(NamesPart(text), TrimSpace(c.certFile), TrimSpace(c.keyFile)));
  }

  /** `NamedCertKey`: a flag value whose `Set` fills its own fields. */
  class NamedCertKey {
    var names: seq<string>
    var certFile: string
    var keyFile: string

    /** `NamedCertKey{}`. */
    constructor ()
      ensures names == [] && certFile == "" && keyFile == ""
    {
      names, certFile, keyFile := [], "", "";
    }

    function Value(): CertKey
      reads this
    {
      CertKey(names, certFile, keyFile)
    }

    /** `String`. */
    function String(): (s: string)
      reads this
      ensures RoundTrips(Value()) ==> ParseCertKey(s) == Ok(Value())
    {
      if RoundTrips(Value()) then ParseRender(Value()); Render(Value()) else Render(Value())
    }

    /** `Set`: parses `value` into the fields. An empty names list changes nothing; a
        malformed file pair leaves the new names stored and the files as they were. */
    method Set(value: string) returns (err: Option<CertKeyError>)
      modifies this
      ensures var r := ParseCertKey(value);
        && (r.Ok? ==> err == None && Value() == r.value)
        && (r == Err(EmptyNames) ==> err == Some(EmptyNames) && Value() == old(Value()))
        && (r == Err(NotCertAndKey) ==>
              err == Some(NotCertAndKey) && names == NamesPart(value)
              && certFile == old(certFile) && keyFile == old(keyFile))
    {
      var cs := Cut(value, ':');
      var keyCert;
      if cs.Some? {
        var list;
        keyCert, list := TrimSpace(cs.value.0), TrimSpace(cs.value.1);
        if list == "" {
          return Some(EmptyNames);
        }
        StoreNames(list);
      } else {
        names := [];
        keyCert := TrimSpace(value);
      }
      var files := Split(keyCert, ',');
      if |files| != 2 {
        return Some(NotCertAndKey);
      }
      certFile := TrimSpace(files[0]);
      keyFile := TrimSpace(files[1]);
      return None;
    }

    /** The loop of `Set` that replaces the names with the trimmed comma-separated parts of
        `list`. */
    method StoreNames(list: string)
      modifies this
      ensures names == TrimEach(Split(list, ','))
      ensures certFile == old(certFile) && keyFile == old(keyFile)
    {
      names := [];
      var parts := Split(list, ',');
      var i := 0;
      while i < |parts|
        invariant 0 <= i <= |parts|
        invariant names == TrimEach(parts[..i])
        invariant certFile == old(certFile) && keyFile == old(keyFile)
      {
        names := names + [TrimSpace(parts[i])];
        i := i + 1;
      }
      assert parts[..|parts|] == parts;
    }
  }

  /** The slice variable a `*[]NamedCertKey` points at. */
  class CertKeyList {
    var items: seq<CertKey>

    constructor (items: seq<CertKey>)
      ensures this.items == items
    {
      this.items := items;
    }
  }

  /** The renderings of all elements, in order. */
  function RenderAll(cs: seq<CertKey>): (r: seq<string>)
    ensures |r| == |cs| && forall i :: 0 <= i < |cs| ==> r[i] == Render(cs[i])
  {
    seq(|cs|, i requires 0 <= i < |cs| => Render(cs[i]))
  }

  /** The text between the brackets of `NamedCertKeyArray.String` splits at ';' into the
      elements' renderings, and each parses back into its element. */
  lemma ListRoundTrip(cs: seq<CertKey>)
    requires |cs| > 0
    requires forall i :: 0 <= i < |cs| ==> RoundTrips(cs[i]) && ';' !in Render(cs[i])
    ensures var parts := Split(Join(RenderAll(cs), ";"), ';');
      |parts| == |cs| && forall i :: 0 <= i < |cs| ==> ParseCertKey(parts[i]) == Ok(cs[i])
  {
    SplitJoin(RenderAll(cs), ';');
    forall i | 0 <= i < |cs| ensures ParseCertKey(RenderAll(cs)[i]) == Ok(cs[i]) {
      ParseRender(cs[i]);
    }
  }

  /** `NamedCertKeyArray`: a flag whose every `Set` parses one `NamedCertKey` into the slice
      `value` points at. The first successful `Set` replaces the slice's defaults; later
      ones append. */
  class NamedCertKeyArray {
    const value: CertKeyList
    var changed: bool

    /** `NewNamedCertKeyArray`. */
    constructor (p: CertKeyList)
      ensures value == p && !changed
    {
      value := p;
      changed := false;
    }

    /** `Set`: a refused value changes nothing. */
    method Set(val: string) returns (err: Option<CertKeyError>)
      modifies this, value
      ensures var r := ParseCertKey(val);
        && (r.Err? ==> err == Some(r.error) && value.items == old(value.items) && changed == old(changed))
        && (r.Ok? ==>
              err == None && changed
              && value.items == (if old(changed) then old(value.items) else []) + [r.value])
    {
      var nkc := new NamedCertKey();
      err := nkc.Set(val);
      if err.Some? {
        return;
      }
      if !changed {
        value.items := [nkc.Value()];
        changed := true;
      } else {
        value.items := value.items + [nkc.Value()];
      }
    }

    /** `String`: the elements' renderings joined with ';', in brackets. */
    method String() returns (s: string)
      ensures s == "[" + Join(RenderAll(value.items), ";") + "]"
    {
      var m: seq<string> := [];
      var i := 0;
      while i < |value.items|
        invariant 0 <= i <= |value.items|
        invariant m == RenderAll(value.items[..i])
      {
        m := m + [Render(value.items[i])];
        i := i + 1;
      }
      assert value.items[..|value.items|] == value.items;
      s := "[" + Join(m, ";") + "]";
    }
  }
}
