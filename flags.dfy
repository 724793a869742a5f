/** The map-valued command-line flags: `MapStringString` and `MapStringBool` store
    `key=value` pairs into a map variable the flag points at. */
module MapFlags {
  import opened Wrappers
  import opened GoStrings
  import opened KeyValueText

  /** A Go variable of map type, as a `*map[string]V` points at it; `None` is a nil map. */
  class MapVar<V> {
    var entries: Option<map<string, V>>

    constructor (entries: Option<map<string, V>>)
      ensures this.entries == entries
    {
      this.entries := entries;
    }
  }

  /** Why `Set` refused a value. */
  datatype FlagError =
    | NoTarget                    // "no target (nil point to map[string]...)"
    | Rejected(reason: PairError) // "malformed pair, ..." or "invalid value of ..."

  function AsFlagError(e: Option<PairError>): Option<FlagError> {
    if e.None? then None else Some(Rejected(e.value))
  }

  // ------------------------------------------------------- MapStringString

  /** The whole value as one pair, as `MapStringString.Set` takes it after its loop:
      unlike a piece inside the loop, an empty value is malformed. */
  function ApplyWhole(m: map<string, string>, value: string): (r: Applied<string>)
    ensures r.error.None? <==> '=' in value
    ensures r.error.None? ==> r.entries == m[ParsePair(value).value.0 := ParsePair(value).value.1]
    ensures r.error.Some? ==> r.entries == m && r.error == Some(MalformedPair)
  {
    match ParsePair(value)
    case None => Applied(m, Some(MalformedPair))
    case Some(kv) => Applied(m[kv.0 := kv.1], None)
  }

  /** What `MapStringString.Set` does to the map it starts from, as written: with
      `NoSplit` unset, every comma-separated piece is stored; then, whether `NoSplit` is
      set or not, the whole value is stored once more as a single pair. So every accepted
      value has an '=', and the key before its first '=' ends up holding everything after
      it, commas included. */
  function SetStringAsWritten(m: map<string, string>, value: string, noSplit: bool): (r: Applied<string>)
    ensures r.error.None? ==> '=' in value
    ensures r.error.None? ==>
      (ParsePair(value).value.0 in r.entries && r.entries[ParsePair(value).value.0] == ParsePair(value).value.1)
  {
    var looped := if noSplit then Applied(m, None) else ApplyPieces(m, Split(value, ','), ReadString);
    if looped.error.Some? then looped else ApplyWhole(looped.entries, value)
  }

  /** What the type's documentation promises: with `NoSplit` unset, the comma-separated
      pairs; with it set, the whole value as one pair. */
  function SetStringIntended(m: map<string, string>, value: string, noSplit: bool): (r: Applied<string>)
    ensures noSplit ==> (r.error.None? <==> '=' in value)
    ensures m.Keys <= r.entries.Keys
  {
    if noSplit then ApplyWhole(m, value) else ApplyPieces(m, Split(value, ','), ReadString)
  }

  /** With the intended behaviour, setting the flag to its own `String()` stores the
      entries it renders (over whatever the map already held). */
  lemma SetStringIntendedRoundTrip(acc: map<string, string>, m: map<string, string>)
    requires RoundTrips(m, ShowString, ReadString)
    ensures SetStringIntended(acc, Rendered(m, ShowString), false) == Applied(acc + m, None)
  {
    ApplyRendered(acc, m, ShowString, ReadString);
  }

  /** Two pairs in one invocation, as in the documented example `--flag "a=foo,b=bar"`:
      as written, the first key ends up holding everything after its '=' (`foo,b=bar`);
      as intended, each key holds its own value. */
  lemma SetStringWholeValueOverrides(k1: string, v1: string, k2: string, v2: string)
    requires forall t :: t in [k1, v1, k2, v2] ==> ',' !in t && Trimmed(t)
    requires '=' !in k1 && '=' !in k2 && v1 != "" && v2 != ""
    ensures var value := k1 + "=" + v1 + "," + k2 + "=" + v2;
      && k1 in SetStringAsWritten(map[], value, false).entries
      && SetStringAsWritten(map[], value, false).entries[k1] == v1 + "," + k2 + "=" + v2
      && SetStringIntended(map[], value, false) == Applied(map[k1 := v1][k2 := v2], None)
  {
    assert ',' !in k1 && ',' !in v1 && ',' !in k2 && ',' !in v2 by {
      assert k1 in [k1, v1, k2, v2] && v1 in [k1, v1, k2, v2];
      assert k2 in [k1, v1, k2, v2] && v2 in [k1, v1, k2, v2];
    }
    assert Trimmed(k1) && Trimmed(v1) && Trimmed(k2) && Trimmed(v2) by {
      assert k1 in [k1, v1, k2, v2] && v1 in [k1, v1, k2, v2];
      assert k2 in [k1, v1, k2, v2] && v2 in [k1, v1, k2, v2];
    }
    var p1, p2 := k1 + "=" + v1, k2 + "=" + v2;
    var rest := v1 + "," + k2 + "=" + v2;
    assert k1 + "=" + v1 + "," + k2 + "=" + v2 == p1 + [','] + p2 == k1 + "=" + rest;
    TwoPieces(p1, p2);
    TwoPairs(k1, v1, k2, v2);
    assert rest[0] == v1[0] && rest[|rest| - 1] == v2[|v2| - 1];
    ParseRenderedPair(k1, rest);
  }

  lemma TwoPieces(p1: string, p2: string)
    requires ',' !in p1 && ',' !in p2
    ensures Split(p1 + [','] + p2, ',') == [p1, p2]
  {
    assert Join([p1, p2], [',']) == p1 + [','] + p2;
    SplitJoin([p1, p2], ',');
  }

  lemma TwoPairs(k1: string, v1: string, k2: string, v2: string)
    requires '=' !in k1 && '=' !in k2 && Trimmed(k1) && Trimmed(v1) && Trimmed(k2) && Trimmed(v2)
    ensures ApplyPieces(map[], [k1 + "=" + v1, k2 + "=" + v2], ReadString)
      == Applied(map[k1 := v1][k2 := v2], None)
  {
    ParseRenderedPair(k1, v1);
    ParseRenderedPair(k2, v2);
    var pieces := [k1 + "=" + v1, k2 + "=" + v2];
    assert pieces[..1] == [k1 + "=" + v1] && pieces[..1][..0] == [];
    assert ApplyPieces(map[], pieces[..1], ReadString) == Applied(map[k1 := v1], None);
  }

  /** `MapStringString`: a flag whose `Set` stores pairs into the map `target` points at. */
  class MapStringString {
    const target: MapVar?<string>   // `Map`; null is a nil pointer
    var initialized: bool
    const noSplit: bool             // `NoSplit`

    /** `NewMapStringString` (`noSplit` false) and `NewMapStringStringNoSplit` (true). */
    constructor (target: MapVar?<string>, noSplit: bool)
      ensures this.target == target && this.noSplit == noSplit && !initialized
    {
      this.target := target;
      this.noSplit := noSplit;
      initialized := false;
    }

    /** The map `Set` adds to: the target's own once an earlier `Set` initialised it and it
        is not nil; otherwise a fresh empty map, which drops the defaults. */
    function Base(): map<string, string>
      reads this, target
      requires target != null
    {
      if !initialized || target.entries.None? then map[] else target.entries.value
    }

    /** The entries the target holds; a nil map holds none. */
    function Stored(): map<string, string>
      reads target
      requires target != null
    {
      if target.entries.None? then map[] else target.entries.value
    }

    /** `Set`: stores the pairs of `value` as written (see `SetStringAsWritten`). A refused
        piece leaves the pieces before it stored. */
    method Set(value: string) returns (err: Option<FlagError>)
      modifies this, target
      ensures target == null ==> err == Some(NoTarget) && initialized == old(initialized)
      ensures target != null ==>
        var r := SetStringAsWritten(old(Base()), value, noSplit);
        && initialized
        && target.entries == Some(r.entries)
        && err == AsFlagError(r.error)
    {
      if target == null {
        return Some(NoTarget);
      }
      if !initialized || target.entries.None? {
        target.entries := Some(map[]);
        initialized := true;
      }
      if !noSplit {
        var error := StorePieces(Split(value, ','));
        if error.Some? {
          return Some(Rejected(error.value));
        }
      }
      var arr := Cut(value, '=');
      if arr.None? {
        return Some(Rejected(MalformedPair));
      }
      var k, v := TrimSpace(arr.value.0), TrimSpace(arr.value.1);
      target.entries := Some(target.entries.value[k := v]);
      return None;
    }

    /** The loop of `Set` over the comma-separated pieces: an empty piece is skipped, a
        piece without '=' stops the loop, any other stores its trimmed value under its
        trimmed key. */
    method StorePieces(pieces: seq<string>) returns (error: Option<PairError>)
      requires target != null && target.entries.Some?
      modifies target
      ensures var r := ApplyPieces(old(target.entries.value), pieces, ReadString);
        target.entries == Some(r.entries) && error == r.error
    {
      ghost var start := target.entries.value;
      var i := 0;
      while i < |pieces|
        invariant 0 <= i <= |pieces|
        invariant target.entries.Some?
        invariant ApplyPieces(start, pieces[..i], ReadString) == Applied(target.entries.value, None)
      {
        var s := pieces[i];
        assert pieces[..i + 1][..i] == pieces[..i];
        if |s| == 0 {
          i := i + 1;
          continue;
        }
        var arr := Cut(s, '=');
        if arr.None? {
          ErrorPersists(start, pieces, i + 1, ReadString);
          return Some(MalformedPair);
        }
        var k, v := TrimSpace(arr.value.0), TrimSpace(arr.value.1);
        target.entries := Some(target.entries.value[k := v]);
        i := i + 1;
      }
      assert pieces[..|pieces|] == pieces;
      return None;
    }

    /** `String`: the stored pairs, sorted and joined with commas; "" without a target. */
    method String() returns (s: string)
      ensures target == null ==> s == ""
      ensures target != null ==> s == Rendered(Stored(), ShowString)
    {
      if target == null {
        return "";
      }
      s := RenderPairs(Stored(), ShowString);
    }

    /** `Empty`: the target map holds no entry (a nil map counts as empty), exactly when
        `String()` renders nothing. */
    predicate Empty()
      reads target
      requires target != null
      ensures Empty() <==> Rendered(Stored(), ShowString) == ""
    {
      RenderedIsEmpty(Stored(), ShowString);
      Stored() == map[]
    }
  }

  // --------------------------------------------------------- MapStringBool

  /** Setting the flag to its own `String()` stores the entries it renders; from an empty
      map it gives them back. Keys must survive the text form; `true`/`false` always do. */
  lemma SetBoolRoundTrip(acc: map<string, bool>, m: map<string, bool>)
    requires forall k :: k in m ==> ',' !in k && '=' !in k && Trimmed(k)
    ensures ApplyPieces(acc, Split(Rendered(m, FormatBool), ','), ParseBool) == Applied(acc + m, None)
  {
    forall k | k in m ensures ',' !in FormatBool(m[k]) && Trimmed(FormatBool(m[k]))
      && ParseBool(FormatBool(m[k])) == Some(m[k]) {
      BoolTextRoundTrips(m[k]);
    }
    ApplyRendered(acc, m, FormatBool, ParseBool);
  }

  /** `true` and `false` read back, and need neither trimming nor splitting. */
  lemma BoolTextRoundTrips(b: bool)
    ensures ',' !in FormatBool(b) && Trimmed(FormatBool(b)) && ParseBool(FormatBool(b)) == Some(b)
  {
    ParseFormatBool(b);
    if b {
      assert FormatBool(b) == "true";
    } else {
      assert FormatBool(b) == "false";
    }
  }

  /** `MapStringBool`: a flag whose `Set` stores `key=bool` pairs into the map `target`
      points at. */
  class MapStringBool {
    const target: MapVar?<bool>   // `Map`; null is a nil pointer
    var initialized: bool

    /** `NewMapStringBool`. */
    constructor (target: MapVar?<bool>)
      ensures this.target == target && !initialized
    {
      this.target := target;
      initialized := false;
    }

    /** The map `Set` adds to, as for `MapStringString`. */
    function Base(): map<string, bool>
      reads this, target
      requires target != null
    {
      if !initialized || target.entries.None? then map[] else target.entries.value
    }

    function Stored(): map<string, bool>
      reads target
      requires target != null
    {
      if target.entries.None? then map[] else target.entries.value
    }

    /** `Set`: stores every pair of `value`; a refused piece leaves the pieces before it
        stored. */
    method Set(value: string) returns (err: Option<FlagError>)
      modifies this, target
      ensures target == null ==> err == Some(NoTarget) && initialized == old(initialized)
      ensures target != null ==>
        var r := ApplyPieces(old(Base()), Split(value, ','), ParseBool);
        && initialized
        && target.entries == Some(r.entries)
        && err == AsFlagError(r.error)
    {
      if target == null {
        return Some(NoTarget);
      }
      if !initialized || target.entries.None? {
        target.entries := Some(map[]);
        initialized := true;
      }
      var error := StorePieces(Split(value, ','));
      if error.Some? {
        return Some(Rejected(error.value));
      }
      return None;
    }

    /** The loop of `Set` over the comma-separated pieces. */
    method StorePieces(pieces: seq<string>) returns (error: Option<PairError>)
      requires target != null && target.entries.Some?
      modifies target
      ensures var r := ApplyPieces(old(target.entries.value), pieces, ParseBool);
        target.entries == Some(r.entries) && error == r.error
    {
      ghost var start := target.entries.value;
      var i := 0;
      while i < |pieces|
        invariant 0 <= i <= |pieces|
        invariant target.entries.Some?
        invariant ApplyPieces(start, pieces[..i], ParseBool) == Applied(target.entries.value, None)
      {
        StepPieces(start, pieces, i, ParseBool, target.entries.value);
        error := StorePiece(pieces[i]);
        if error.Some? {
          ErrorPersists(start, pieces, i + 1, ParseBool);
          return;
        }
        i := i + 1;
      }
      assert pieces[..|pieces|] == pieces;
      return None;
    }

    /** One round of `Set`'s loop: an empty piece is skipped; otherwise it must be a pair
        whose trimmed value `strconv.ParseBool` reads, and is stored under its trimmed key. */
    method StorePiece(s: string) returns (error: Option<PairError>)
      requires target != null && target.entries.Some?
      modifies target
      ensures var r := ApplyPiece(old(target.entries.value), s, ParseBool);
        target.entries == Some(r.entries) && error == r.error
    {
      if |s| == 0 {
        return None;
      }
      var arr := Cut(s, '=');
      if arr.None? {
        return Some(MalformedPair);
      }
      var k, v := TrimSpace(arr.value.0), TrimSpace(arr.value.1);
      var b := ParseBool(v);
      if b.None? {
        return Some(InvalidValue(k, v));
      }
      target.entries := Some(target.entries.value[k := b.value]);
      return None;
    }

    /** `String`: the stored pairs as `key=true`/`key=false`, sorted and joined with
        commas; "" without a target. */
    method String() returns (s: string)
      ensures target == null ==> s == ""
      ensures target != null ==> s == Rendered(Stored(), FormatBool)
    {
      if target == null {
        return "";
      }
      s := RenderPairs(Stored(), FormatBool);
    }

    /** `Empty`: the target map holds no entry, exactly when `String()` renders nothing. */
    predicate Empty()
      reads target
      requires target != null
      ensures Empty() <==> Rendered(Stored(), FormatBool) == ""
    {
      RenderedIsEmpty(Stored(), FormatBool);
      Stored() == map[]
    }
  }
}
