/** ByteBufferUtils: copying a buffer's remaining bytes, splitting a key by its
    comparator, rendering it as text, and the hex codec used for stored keys. */
module ByteBufferUtils {
  import opened Common
  import opened Marshal

  /** A heap byte buffer: the bytes between position and limit are its content. */
  class ByteBuffer {
    var hb: array<byte>
    var position: nat
    var limit: nat

    ghost predicate Valid()
      reads this
    {
      position <= limit <= hb.Length
    }

    function Remaining(): bytes
      reads this, hb
      requires Valid()
    {
      hb[position..limit]
    }

    /** ByteBuffer.wrap. */
    constructor Wrap(a: array<byte>)
      ensures Valid() && hb == a && position == 0 && limit == a.Length
    {
      hb := a;
      position := 0;
      limit := a.Length;
    }
  }

  /** asArray: a fresh array holding exactly the remaining bytes, in order. The copy
      is taken from a clone, so the argument is not changed (it is outside any frame). */
  method AsArray(key: ByteBuffer) returns (bytes: array<byte>)
    requires key.Valid()
    ensures fresh(bytes)
    ensures bytes[..] == key.Remaining()
  {
    var n := key.limit - key.position;
    bytes := new byte[n];
    var i := 0;
    while i < n
      invariant 0 <= i <= n
      invariant bytes[..i] == key.hb[key.position..key.position + i]
    {
      bytes[i] := key.hb[key.position + i];
      i := i + 1;
    }
  }

  // ---------------------------------------------------------------------------
  // Hex codec (Cassandra's Hex.bytesToHex / Hex.hexToBytes).

  /** The lower-case digit of a nibble. */
  function HexDigit(d: nat): char
    requires d < 16
  {
    if d < 10 then (48 + d) as char else (87 + d) as char
  }

  predicate IsLowerHex(c: char) {
    '0' <= c <= '9' || 'a' <= c <= 'f'
  }

  /** The value of a hex digit in either case, or None. */
  function HexValue(c: char): (r: Option<nat>)
    ensures r.Some? ==> r.value < 16
    ensures IsLowerHex(c) ==> r.Some? && HexDigit(r.value) == c
    ensures forall d: nat :: d < 16 && c == HexDigit(d) ==> r == Some(d)
  {
    if '0' <= c <= '9' then Some(c as int - '0' as int)
    else if 'a' <= c <= 'f' then Some(c as int - 'a' as int + 10)
    else if 'A' <= c <= 'F' then Some(c as int - 'A' as int + 10)
    else None
  }

  /** Hex.bytesToHex: two lower-case digits per byte, high nibble first. */
  function BytesToHex(b: bytes): (s: string)
    ensures |s| == 2 * |b|
    ensures forall i :: 0 <= i < |s| ==> IsLowerHex(s[i])
  {
    if b == [] then ""
    else [HexDigit(b[0] / 16), HexDigit(b[0] % 16)] + BytesToHex(b[1..])
  }

  function HexPairs(s: string): (r: Result<bytes>)
    requires |s| % 2 == 0
    ensures r.Err? ==> r.error == InvalidHex
  {
    if s == [] then Ok([])
    else
      match (HexValue(s[0]), HexValue(s[1]))
      case (Some(hi), Some(lo)) =>
        var rest :- HexPairs(s[2..]);
        Ok([hi * 16 + lo] + rest)
      case _ => Err(InvalidHex)
  }

  /** fromHex: Hex.hexToBytes wrapped in a buffer. An odd length or a non-hex
      character is a NumberFormatException. */
  function FromHex(s: string): (r: Result<bytes>)
    ensures r.Err? ==> r.error == InvalidHex
  {
    if |s| % 2 == 1 then Err(InvalidHex) else HexPairs(s)
  }

  /** toHex: the hex of the remaining bytes, read through asArray. */
  method ToHex(bb: ByteBuffer) returns (s: string)
    requires bb.Valid()
    ensures s == BytesToHex(bb.Remaining())
  {
    var bytes := AsArray(bb);
    s := BytesToHex(bytes[..]);
  }

  lemma {:induction false} HexRoundTrip(b: bytes)
    ensures FromHex(BytesToHex(b)) == Ok(b)
  {
    if b != [] {
      var s := BytesToHex(b);
      assert s[2..] == BytesToHex(b[1..]);
      HexRoundTrip(b[1..]);
      assert b[0] / 16 * 16 + b[0] % 16 == b[0];
      assert [b[0]] + b[1..] == b;
    }
  }

  predicate AllHex(s: string) {
    forall i :: 0 <= i < |s| ==> HexValue(s[i]).Some?
  }

  lemma {:induction false} HexPairsAccepts(s: string)
    requires |s| % 2 == 0
    ensures HexPairs(s).Ok? <==> AllHex(s)
    ensures HexPairs(s).Ok? ==> |HexPairs(s).value| * 2 == |s|
  {
    if s != [] {
      HexPairsAccepts(s[2..]);
      assert AllHex(s) <==> HexValue(s[0]).Some? && HexValue(s[1]).Some? && AllHex(s[2..]) by {
        if AllHex(s) {
          forall i | 0 <= i < |s[2..]| ensures HexValue(s[2..][i]).Some? { assert s[2..][i] == s[i + 2]; }
        }
        if HexValue(s[0]).Some? && HexValue(s[1]).Some? && AllHex(s[2..]) {
          forall i | 0 <= i < |s| ensures HexValue(s[i]).Some? {
            if i >= 2 { assert s[i] == s[2..][i - 2]; }
          }
        }
      }
    }
  }

  /** fromHex fails exactly on odd lengths and non-hex characters, and otherwise
      yields one byte per two digits. */
  lemma FromHexAccepts(s: string)
    ensures FromHex(s).Ok? <==> |s| % 2 == 0 && AllHex(s)
    ensures FromHex(s).Ok? ==> |FromHex(s).value| * 2 == |s|
  {
    if |s| % 2 == 0 {
      HexPairsAccepts(s);
    }
  }

  lemma {:induction false} HexPairsThenEncode(s: string)
    requires |s| % 2 == 0 && HexPairs(s).Ok?
    requires forall i :: 0 <= i < |s| ==> IsLowerHex(s[i])
    ensures BytesToHex(HexPairs(s).value) == s
  {
    if s != [] {
      var hi := HexValue(s[0]).value;
      var lo := HexValue(s[1]).value;
      var tail := s[2..];
      assert forall i :: 0 <= i < |tail| ==> tail[i] == s[i + 2];
      HexPairsThenEncode(tail);
      var rest := HexPairs(tail).value;
      var b := HexPairs(s).value;
      assert b == [hi * 16 + lo] + rest;
      assert b[0] == hi * 16 + lo && b[1..] == rest;
      NibblesOfByte(hi, lo);
      assert HexDigit(hi) == s[0] && HexDigit(lo) == s[1];
      assert b[0] / 16 == hi && b[0] % 16 == lo;
      assert BytesToHex(b) == [s[0], s[1]] + tail;
      assert s == [s[0], s[1]] + tail;
    }
  }

  lemma NibblesOfByte(hi: nat, lo: nat)
    requires hi < 16 && lo < 16
    ensures (hi * 16 + lo) / 16 == hi && (hi * 16 + lo) % 16 == lo
  {
  }

  /** The other direction of the round trip, for the lower-case text toHex emits. */
  lemma FromHexThenEncode(s: string)
    requires FromHex(s).Ok?
    requires forall i :: 0 <= i < |s| ==> IsLowerHex(s[i])
    ensures BytesToHex(FromHex(s).value) == s
  {
    HexPairsThenEncode(s);
  }

  // ---------------------------------------------------------------------------
  // Splitting and rendering.

  /** split: a composite comparator's components in declared order; the input
      itself as the only element for any other comparator. */
  function Split(bb: bytes, comparator: Comparator): (r: Result<seq<bytes>>)
    ensures comparator.Simple? ==> r == Ok([bb])
    ensures comparator.Composite? && r.Ok? ==> |r.value| <= |comparator.types|
  {
    match comparator
    case Composite(types) => SplitComposite(types, bb)
    case Simple(_) => Ok([bb])
  }

  /** A composite key built from components splits back into them. */
  lemma SplitOfBuilt(types: seq<ColumnType>, cs: seq<bytes>)
    requires |cs| <= |types| && Encodable(cs)
    ensures Split(Build(cs), Composite(types)) == Ok(cs)
  {
    BuildSplitRoundTrip(types, cs);
  }

  /** The texts joined by ':' separators, none before the first nor after the last. */
  function Join(parts: seq<string>): string {
    if |parts| == 0 then ""
    else if |parts| == 1 then parts[0]
    else Join(parts[..|parts| - 1]) + ":" + parts[|parts| - 1]
  }

  /** One component's text as StringBuilder.append(Object) writes it: String.valueOf
      of the composed value, or the error compose raises. */
  function Rendered(host: Host, t: ColumnType, component: bytes): Result<string> {
    var v :- host.compose(t, component);
    Ok(StringValueOf(v))
  }

  /** The text of each declared type's component, in declared order; a type past
      the last component indexes out of bounds. */
  function RenderResults(host: Host, types: seq<ColumnType>, components: seq<bytes>): (r: seq<Result<string>>)
    ensures |r| == |types|
  {
    seq(|types|, i requires 0 <= i < |types| =>
      if i < |components| then Rendered(host, types[i], components[i]) else Err(IndexOutOfBounds))
  }

  /** What toString computes. A composite's components are rendered in declared
      order and joined by ':', the first failure being the result; any other
      comparator renders the composed value with toString(), which fails on null. */
  function TextOf(host: Host, bb: bytes, comparator: Comparator): (r: Result<string>)
    ensures comparator.Simple? ==>
      (r.Ok? <==> host.compose(comparator.t, bb).Ok? && !host.compose(comparator.t, bb).value.JNull?)
    ensures comparator.Simple? && r.Ok? ==> r == JavaToString(host.compose(comparator.t, bb).value)
    ensures comparator.Composite? && r.Ok? ==>
      SplitComposite(comparator.types, bb).Ok? && |SplitComposite(comparator.types, bb).value| >= |comparator.types|
  {
    match comparator
    case Composite(types) =>
      var components :- SplitComposite(types, bb);
      JoinRendered(RenderResults(host, types, components))
    case Simple(t) =>
      var v :- host.compose(t, bb);
      JavaToString(v)
  }

  lemma JoinSnoc(parts: seq<string>, p: string)
    requires |parts| >= 1
    ensures Join(parts + [p]) == Join(parts) + ":" + p
  {
    assert (parts + [p])[..|parts|] == parts;
  }

  /** toString: a composite name is split and its components appended in a loop;
      any other key composes to a single value. */
  method ToString(host: Host, bb: bytes, comparator: Comparator) returns (r: Result<string>)
    ensures r == TextOf(host, bb, comparator)
  {
    match comparator {
      case Simple(t) =>
        var v := host.compose(t, bb);
        if v.Err? {
          r := Err(v.error);
        } else {
          r := JavaToString(v.value);
        }
      case Composite(types) =>
        var split := SplitComposite(types, bb);
        if split.Err? {
          r := Err(split.error);
        } else {
          r := AppendComponents(host, types, split.value);
        }
    }
  }

  /** The texts that all rendered, joined by ':'; otherwise the first failure. */
  function JoinRendered(results: seq<Result<string>>): Result<string> {
    var texts :- Collect(results);
    Ok(Join(texts))
  }

  /** toString's StringBuilder loop over the declared types: each type's component is
      composed and appended, with ':' between consecutive components. */
  method AppendComponents(host: Host, types: seq<ColumnType>, components: seq<bytes>) returns (r: Result<string>)
    ensures r == JoinRendered(RenderResults(host, types, components))
  {
    ghost var texts: seq<string> := [];
    var sb := "";
    var i := 0;
    while i < |types|
      invariant 0 <= i <= |types|
      invariant Collect(RenderResults(host, types, components)[..i]) == Ok(texts)
      invariant sb == Join(texts) + (if 0 < i < |types| then ":" else "")
    {
      if i >= |components| {
        AppendStops(host, types, components, i);
        return Err(IndexOutOfBounds);
      }
      var v := host.compose(types[i], components[i]);
      if v.Err? {
        AppendStops(host, types, components, i);
        return Err(v.error);
      }
      var text := StringValueOf(v.value);
      AppendStep(host, types, components, i, texts);
      sb := sb + text;
      texts := texts + [text];
      if i < |types| - 1 {
        sb := sb + ":";
      }
      i := i + 1;
    }
    AppendDone(host, types, components, texts);
    assert sb == Join(texts) + "" == Join(texts);
    r := Ok(sb);
  }

  lemma AppendStep(host: Host, types: seq<ColumnType>, components: seq<bytes>, i: nat, texts: seq<string>)
    requires i < |types| && i < |components| && host.compose(types[i], components[i]).Ok?
    requires Collect(RenderResults(host, types, components)[..i]) == Ok(texts)
    ensures var text := StringValueOf(host.compose(types[i], components[i]).value);
      && Collect(RenderResults(host, types, components)[..i + 1]) == Ok(texts + [text])
      && Join(texts + [text]) == Join(texts) + (if 0 < i then ":" else "") + text
  {
    var text := StringValueOf(host.compose(types[i], components[i]).value);
    CollectSnoc(RenderResults(host, types, components), i, texts);
    if i > 0 {
      JoinSnoc(texts, text);
    } else {
      assert texts + [text] == [text];
    }
  }

  lemma AppendStops(host: Host, types: seq<ColumnType>, components: seq<bytes>, i: nat)
    requires i < |types| && Collect(RenderResults(host, types, components)[..i]).Ok?
    requires i >= |components| || host.compose(types[i], components[i]).Err?
    ensures JoinRendered(RenderResults(host, types, components))
         == Err(if i >= |components| then IndexOutOfBounds else host.compose(types[i], components[i]).error)
  {
    CollectFailsAt(RenderResults(host, types, components), i);
  }

  lemma AppendDone(host: Host, types: seq<ColumnType>, components: seq<bytes>, texts: seq<string>)
    requires Collect(RenderResults(host, types, components)[..|types|]) == Ok(texts)
    ensures JoinRendered(RenderResults(host, types, components)) == Ok(Join(texts))
  {
    assert RenderResults(host, types, components)[..|types|] == RenderResults(host, types, components);
  }

  /** The String.valueOf texts of components that all compose. */
  function ComposedTexts(host: Host, types: seq<ColumnType>, cs: seq<bytes>): (r: seq<string>)
    requires |cs| <= |types| && forall i :: 0 <= i < |cs| ==> host.compose(types[i], cs[i]).Ok?
    ensures |r| == |cs|
  {
    seq(|cs|, i requires 0 <= i < |cs| => StringValueOf(host.compose(types[i], cs[i]).value))
  }

  /** The text of a composite name built from at most one component per declared
      type succeeds exactly when every type has a component and every compose
      succeeds, and is then the components' String.valueOf texts joined by ':'. */
  lemma TextOfBuilt(host: Host, types: seq<ColumnType>, cs: seq<bytes>)
    requires |cs| <= |types| && Encodable(cs)
    ensures TextOf(host, Build(cs), Composite(types)).Ok?
        <==> |cs| == |types| && forall i :: 0 <= i < |cs| ==> host.compose(types[i], cs[i]).Ok?
    ensures TextOf(host, Build(cs), Composite(types)).Ok? ==>
      TextOf(host, Build(cs), Composite(types)) == Ok(Join(ComposedTexts(host, types, cs)))
  {
    TextOfBuiltCollects(host, types, cs);
    RenderResultsSucceed(host, types, cs);
  }

  /** Where the first failure in declared order lies at position j, the text is that
      failure: compose's error for a component that does not compose, IndexOutOfBounds
      for a type past the last component. */
  lemma TextOfBuiltFailsAt(host: Host, types: seq<ColumnType>, cs: seq<bytes>, j: nat)
    requires |cs| <= |types| && Encodable(cs)
    requires (j < |cs| && host.compose(types[j], cs[j]).Err?) || |cs| == j < |types|
    requires forall i :: 0 <= i < j ==> host.compose(types[i], cs[i]).Ok?
    ensures TextOf(host, Build(cs), Composite(types))
         == Err(if j < |cs| then host.compose(types[j], cs[j]).error else IndexOutOfBounds)
  {
    TextOfBuiltCollects(host, types, cs);
    RenderResultsFailAt(host, types, cs, j);
  }

  lemma RenderResultsSucceed(host: Host, types: seq<ColumnType>, cs: seq<bytes>)
    requires |cs| <= |types|
    ensures Collect(RenderResults(host, types, cs)).Ok?
        <==> |cs| == |types| && forall i :: 0 <= i < |cs| ==> host.compose(types[i], cs[i]).Ok?
    ensures Collect(RenderResults(host, types, cs)).Ok? ==>
      Collect(RenderResults(host, types, cs)).value == ComposedTexts(host, types, cs)
  {
    var results := RenderResults(host, types, cs);
    assert forall i :: 0 <= i < |cs| ==> results[i] == Rendered(host, types[i], cs[i]);
    if Collect(results).Ok? {
      assert Collect(results).value == ComposedTexts(host, types, cs);
    }
  }

  lemma RenderResultsFailAt(host: Host, types: seq<ColumnType>, cs: seq<bytes>, j: nat)
    requires |cs| <= |types|
    requires (j < |cs| && host.compose(types[j], cs[j]).Err?) || |cs| == j < |types|
    requires forall i :: 0 <= i < j ==> host.compose(types[i], cs[i]).Ok?
    ensures Collect(RenderResults(host, types, cs))
         == Err(if j < |cs| then host.compose(types[j], cs[j]).error else IndexOutOfBounds)
  {
    var results := RenderResults(host, types, cs);
    assert forall i :: 0 <= i < j ==> results[i] == Rendered(host, types[i], cs[i]);
    assert Collect(results[..j]).Ok?;
    CollectFailsAt(results, j);
  }

  /** A built composite name's text is the join of its rendered components. */
  lemma TextOfBuiltCollects(host: Host, types: seq<ColumnType>, cs: seq<bytes>)
    requires |cs| <= |types| && Encodable(cs)
    ensures Collect(RenderResults(host, types, cs)).Ok? ==>
      TextOf(host, Build(cs), Composite(types)) == Ok(Join(Collect(RenderResults(host, types, cs)).value))
    ensures Collect(RenderResults(host, types, cs)).Err? ==>
      TextOf(host, Build(cs), Composite(types)) == Err(Collect(RenderResults(host, types, cs)).error)
  {
    BuildSplitRoundTrip(types, cs);
  }

  function CountChar(s: string, c: char): nat {
    if s == [] then 0 else (if s[|s| - 1] == c then 1 else 0) + CountChar(s[..|s| - 1], c)
  }

  lemma {:induction false} CountCharAppend(a: string, b: string, c: char)
    ensures CountChar(a + b, c) == CountChar(a, c) + CountChar(b, c)
    decreases |b|
  {
    if b != [] {
      assert (a + b)[..|a + b| - 1] == a + b[..|b| - 1];
      CountCharAppend(a, b[..|b| - 1], c);
    } else {
      assert a + b == a;
    }
  }

  lemma {:induction false} CountCharAbsent(s: string, c: char)
    requires c !in s
    ensures CountChar(s, c) == 0
    decreases |s|
  {
    if s != [] {
      assert s[..|s| - 1] <= s;
      CountCharAbsent(s[..|s| - 1], c);
    }
  }

  /** With parts that do not contain ':', the join holds exactly one separator
      fewer than there are parts, and ends with the last part (no trailing ':'). */
  lemma {:induction false} JoinSeparators(parts: seq<string>)
    requires |parts| >= 1
    requires forall i :: 0 <= i < |parts| ==> ':' !in parts[i]
    ensures CountChar(Join(parts), ':') == |parts| - 1
    ensures |parts[|parts| - 1]| <= |Join(parts)|
    ensures Join(parts)[|Join(parts)| - |parts[|parts| - 1]|..] == parts[|parts| - 1]
    decreases |parts|
  {
    var last := parts[|parts| - 1];
    if |parts| == 1 {
      CountCharAbsent(last, ':');
    } else {
      var init := parts[..|parts| - 1];
      JoinSeparators(init);
      CountCharAppend(Join(init) + ":", last, ':');
      CountCharAppend(Join(init), ":", ':');
      CountCharAbsent(last, ':');
      assert CountChar(":", ':') == 1;
    }
  }
}
