/** Maps written as text, `key=value` pairs separated by commas. The rendering is what
    `fields.Set.String`, `MapStringString.String` and `MapStringBool.String` do; the
    parsing is the loop the two map flags run in `Set`. */
module KeyValueText {
  import opened Wrappers
  import opened GoStrings
  import Sorting
  import Enumeration

  // ------------------------------------------------------------- rendering

  /** `key + "=" + show(value)` for one entry (`fmt.Sprintf("%s=%s", ...)`). */
  function PairOf<V>(show: V -> string): (string, V) -> string {
    (k: string, v: V) => k + "=" + show(v)
  }

  /** `%s` of a string value. */
  function ShowString(s: string): string { s }

  /** A string value needs no parsing. */
  function ReadString(s: string): Option<string> { Some(s) }

  /** The entries rendered, sorted, and joined with commas. Entries are visited in no
      particular order; the sort makes the text depend on the map alone. */
  ghost function Rendered<V>(m: map<string, V>, show: V -> string): string {
    Join(SortStrings(Enumeration.Listing(m, PairOf(show))), ",")
  }

  /** Any collection of the rendered entries sorts to the same sequence. */
  lemma SortedPairs<V>(m: map<string, V>, show: V -> string, pairs: seq<string>)
    requires multiset(pairs) == Enumeration.Image(m, PairOf(show))
    ensures SortStrings(pairs) == SortStrings(Enumeration.Listing(m, PairOf(show)))
  {
    StringOrderIsTotal();
    Sorting.SortedUnique(SortStrings(pairs), SortStrings(Enumeration.Listing(m, PairOf(show))), StringOrder());
  }

  /** The loop of the `String` methods: range over the map, render each entry, sort,
      join. */
  method RenderPairs<V>(m: map<string, V>, show: V -> string) returns (s: string)
    ensures s == Rendered(m, show)
  {
    var pairs: seq<string> := [];
    var rest := m;
    while rest != map[]
      invariant multiset(pairs) + Enumeration.Image(rest, PairOf(show)) == Enumeration.Image(m, PairOf(show))
      decreases |rest|
    {
      var key :| key in rest;
      Enumeration.ImageRemove(rest, PairOf(show), key);
      Enumeration.RemoveOne(rest, key);
      pairs := pairs + [PairOf(show)(key, rest[key])];
      rest := rest - {key};
    }
    SortedPairs(m, show, pairs);
    s := Join(SortStrings(pairs), ",");
  }

  /** The rendering is empty exactly when the map is. */
  lemma RenderedIsEmpty<V>(m: map<string, V>, show: V -> string)
    ensures Rendered(m, show) == "" <==> m == map[]
  {
    var xs := SortStrings(Enumeration.Listing(m, PairOf(show)));
    if m != map[] {
      assert |m.Keys| > 0;
      assert |xs| == |Enumeration.Image(m, PairOf(show))| == |m| > 0;
      assert xs[0] in multiset(xs);
      Enumeration.ImageMembers(m, PairOf(show), xs[0]);
      assert |xs[0]| > 0;
      assert Join(xs, ",")[..|xs[0]|] == xs[0];
    }
  }

  // --------------------------------------------------------------- parsing

  /** Why a piece was refused. */
  datatype PairError =
    | MalformedPair                              // no '=' in the piece
    | InvalidValue(key: string, value: string)   // the value does not parse

  /** `strings.SplitN(s, "=", 2)` with both halves trimmed: `None` when there is no '='. */
  function ParsePair(s: string): (r: Option<(string, string)>)
    ensures r.None? <==> '=' !in s
    ensures r.Some? ==> '=' !in r.value.0 && Trimmed(r.value.0) && Trimmed(r.value.1)
  {
    match Cut(s, '=')
    case None => None
    case Some(kv) =>
      TrimSpaceKeepsOut(kv.0, '=');
      Some((TrimSpace(kv.0), TrimSpace(kv.1)))
  }

  /** A rendered entry parses back into its key and value. */
  lemma ParseRenderedPair(k: string, v: string)
    requires '=' !in k && Trimmed(k) && Trimmed(v)
    ensures ParsePair(k + "=" + v) == Some((k, v))
  {
    CutAt(k, '=', v);
    TrimSpaceOfTrimmed(k);
    TrimSpaceOfTrimmed(v);
  }

  /** The map after some pieces were applied, and the error that stopped the loop, if any. */
  datatype Applied<V> = Applied(entries: map<string, V>, error: Option<PairError>)

  /** A piece the loop accepts: empty (skipped), or a pair whose value `decode` reads. */
  predicate Accepted<V>(piece: string, decode: string -> Option<V>) {
    piece == "" || (ParsePair(piece).Some? && decode(ParsePair(piece).value.1).Some?)
  }

  /** One round of the loop: an empty piece is skipped; a pair stores its decoded value
      under its key. */
  function ApplyPiece<V>(m: map<string, V>, piece: string, decode: string -> Option<V>): (r: Applied<V>)
    ensures r.error.None? <==> Accepted(piece, decode)
    ensures r.error.None? && piece != "" ==> r.entries == m[ParsePair(piece).value.0 := decode(ParsePair(piece).value.1).value]
    ensures r.error.Some? || piece == "" ==> r.entries == m
  {
    if piece == "" then Applied(m, None)
    else match ParsePair(piece)
      case None => Applied(m, Some(MalformedPair))
      case Some(kv) =>
        match decode(kv.1)
        case None => Applied(m, Some(InvalidValue(kv.0, kv.1)))
        case Some(x) => Applied(m[kv.0 := x], None)
  }

  /** The loop over all pieces, in order. It stops at the first piece it refuses, keeping
      what the earlier pieces stored. */
  function ApplyPieces<V>(m: map<string, V>, pieces: seq<string>, decode: string -> Option<V>): (r: Applied<V>)
    ensures m.Keys <= r.entries.Keys
    decreases |pieces|
  {
    if pieces == [] then Applied(m, None)
    else
      var before := ApplyPieces(m, pieces[..|pieces| - 1], decode);
      if before.error.Some? then before
      else ApplyPiece(before.entries, pieces[|pieces| - 1], decode)
  }

  /** One more round of the loop, after rounds that all succeeded. */
  lemma StepPieces<V>(m: map<string, V>, pieces: seq<string>, i: nat, decode: string -> Option<V>, entries: map<string, V>)
    requires i < |pieces|
    requires ApplyPieces(m, pieces[..i], decode) == Applied(entries, None)
    ensures ApplyPieces(m, pieces[..i + 1], decode) == ApplyPiece(entries, pieces[i], decode)
  {
    assert pieces[..i + 1][..i] == pieces[..i];
  }

  /** Once a piece is refused, later pieces change nothing. */
  lemma {:induction false} ErrorPersists<V>(m: map<string, V>, pieces: seq<string>, i: nat, decode: string -> Option<V>)
    requires i <= |pieces|
    requires ApplyPieces(m, pieces[..i], decode).error.Some?
    ensures ApplyPieces(m, pieces, decode) == ApplyPieces(m, pieces[..i], decode)
    decreases |pieces| - i
  {
    if i < |pieces| {
      var init := pieces[..|pieces| - 1];
      assert init[..i] == pieces[..i];
      ErrorPersists(m, init, i, decode);
    } else {
      assert pieces[..i] == pieces;
    }
  }

  /** The loop succeeds exactly when it accepts every piece. */
  lemma {:induction false} ApplyPiecesSucceeds<V>(m: map<string, V>, pieces: seq<string>, decode: string -> Option<V>)
    ensures ApplyPieces(m, pieces, decode).error.None?
      <==> forall i :: 0 <= i < |pieces| ==> Accepted(pieces[i], decode)
    decreases |pieces|
  {
    if pieces != [] {
      var init := pieces[..|pieces| - 1];
      ApplyPiecesSucceeds(m, init, decode);
      assert forall i :: 0 <= i < |init| ==> init[i] == pieces[i];
    }
  }

  // ------------------------------------------------------------- round trip

  /** Entries whose text survives a round trip: keys and values hold no comma and no
      surrounding space, keys hold no '=', and `decode` reads back what `show` wrote. */
  ghost predicate RoundTrips<V>(m: map<string, V>, show: V -> string, decode: string -> Option<V>) {
    forall k :: k in m ==>
      && ',' !in k && '=' !in k && Trimmed(k)
      && ',' !in show(m[k]) && Trimmed(show(m[k])) && decode(show(m[k])) == Some(m[k])
  }

  /** One rendered entry, applied, stores that entry. */
  lemma ApplyRenderedPiece<V>(acc: map<string, V>, k: string, v: V, show: V -> string, decode: string -> Option<V>)
    requires '=' !in k && Trimmed(k) && Trimmed(show(v)) && decode(show(v)) == Some(v)
    ensures ApplyPiece(acc, PairOf(show)(k, v), decode) == Applied(acc[k := v], None)
  {
    ParseRenderedPair(k, show(v));
  }

  /** The last of the rendered entries comes from some entry of `m`; the others are the
      rendering of the rest of `m`. */
  lemma LastRendered<V>(m: map<string, V>, show: V -> string, xs: seq<string>) returns (k: string)
    requires xs != []
    requires multiset(xs) == Enumeration.Image(m, PairOf(show))
    ensures k in m && xs[|xs| - 1] == PairOf(show)(k, m[k])
    ensures multiset(xs[..|xs| - 1]) == Enumeration.Image(m - {k}, PairOf(show))
  {
    var x := xs[|xs| - 1];
    assert x in multiset(xs);
    k := EntryOf(m, show, x);
    Enumeration.ImageRemove(m, PairOf(show), k);
    DropLast(xs, Enumeration.Image(m - {k}, PairOf(show)));
  }

  /** Every rendered entry is the rendering of some entry. */
  lemma EntryOf<V>(m: map<string, V>, show: V -> string, x: string) returns (k: string)
    requires x in Enumeration.Image(m, PairOf(show))
    ensures k in m && PairOf(show)(k, m[k]) == x
  {
    Enumeration.ImageMembers(m, PairOf(show), x);
    k :| k in m && PairOf(show)(k, m[k]) == x;
  }

  lemma DropLast<T>(xs: seq<T>, rest: multiset<T>)
    requires xs != [] && multiset(xs) == multiset{xs[|xs| - 1]} + rest
    ensures multiset(xs[..|xs| - 1]) == rest
  {
    var n := |xs| - 1;
    assert xs == xs[..n] + [xs[n]];
    calc {
      multiset(xs[..n]);
      multiset(xs) - multiset{xs[n]};
      rest;
    }
  }

  /** Applying the rendered entries of `m`, in any order, stores all of `m`. */
  lemma {:induction false} ApplyPermuted<V>(acc: map<string, V>, m: map<string, V>, show: V -> string,
                                            decode: string -> Option<V>, xs: seq<string>)
    requires RoundTrips(m, show, decode)
    requires multiset(xs) == Enumeration.Image(m, PairOf(show))
    ensures ApplyPieces(acc, xs, decode) == Applied(acc + m, None)
    decreases |xs|
  {
    if xs == [] {
      assert |m| == |Enumeration.Image(m, PairOf(show))| == 0;
      assert m == map[];
    } else {
      var k := LastRendered(m, show, xs);
      var init := xs[..|xs| - 1];
      ApplyPermuted(acc, m - {k}, show, decode, init);
      assert ApplyPieces(acc, xs, decode) == ApplyPiece(acc + (m - {k}), xs[|xs| - 1], decode);
      ApplyRenderedPiece(acc + (m - {k}), k, m[k], show, decode);
      RestoreEntry(acc, m, k);
    }
  }

  lemma RestoreEntry<V>(acc: map<string, V>, m: map<string, V>, k: string)
    requires k in m
    ensures (acc + (m - {k}))[k := m[k]] == acc + m
  {
    var l, r := (acc + (m - {k}))[k := m[k]], acc + m;
    assert l.Keys == r.Keys;
    forall j | j in l ensures l[j] == r[j] {
    }
  }

  /** Parsing the rendering of `m` into `acc` stores every entry of `m`, overriding
      `acc`; from an empty map, it gives `m` back. */
  lemma ApplyRendered<V>(acc: map<string, V>, m: map<string, V>, show: V -> string, decode: string -> Option<V>)
    requires RoundTrips(m, show, decode)
    ensures ApplyPieces(acc, Split(Rendered(m, show), ','), decode) == Applied(acc + m, None)
  {
    var xs := SortStrings(Enumeration.Listing(m, PairOf(show)));
    if |m| == 0 {
      assert m.Keys == {};
      assert acc + m == acc;
      assert Split("", ',') == [""];
      assert ApplyPieces(acc, [""], decode) == Applied(acc, None);
    } else {
      forall i | 0 <= i < |xs| ensures ',' !in xs[i] {
        assert xs[i] in multiset(xs);
        Enumeration.ImageMembers(m, PairOf(show), xs[i]);
      }
      SplitJoin(xs, ',');
      ApplyPermuted(acc, m, show, decode, xs);
    }
  }

  /** From an empty map, parsing the rendering of `m` gives `m` back. */
  lemma ParseRendered<V>(m: map<string, V>, show: V -> string, decode: string -> Option<V>)
    requires RoundTrips(m, show, decode)
    ensures ApplyPieces(map[], Split(Rendered(m, show), ','), decode) == Applied(m, None)
  {
    ApplyRendered(map[], m, show, decode);
    assert map[] + m == m;
  }
}
