/**
 * The payload codec: PHP's serialize() text format for null, booleans,
 * integers, strings and arrays, and the parser that unserialize() runs.
 * The round trip `Unserialize(Serialize(v)) == Some(v)` is proved rather
 * than assumed.
 *
 *   N;   b:0; b:1;   i:<int>;   s:<len>:"<chars>";   a:<count>:{<key><value>...}
 */
module Codec {
  import opened Wrappers
  import opened PhpValues
  import opened Decimal

  function SerializeStr(s: string): string {
    "s:" + NatToString(|s|) + ":\"" + s + "\";"
  }

  function SerializeKey(k: Key): string {
    match k
    case IntKey(i) => "i:" + IntToString(i) + ";"
    case StrKey(s) => SerializeStr(s)
  }

  /** The letter each encoding starts with. */
  function Tag(v: Value): char {
    match v
    case Null => 'N'
    case Bool(_) => 'b'
    case Int(_) => 'i'
    case Str(_) => 's'
    case Array(_) => 'a'
  }

  /**
   * serialize(): the type letter, then `;` for null and `:` otherwise, and
   * the text ends with `}` for an array and `;` for anything else.
   */
  function Serialize(v: Value): (s: string)
    ensures |s| >= 2 && s[0] == Tag(v)
    ensures s[1] == if v.Null? then ';' else ':'
    ensures s[|s| - 1] == if v.Array? then '}' else ';'
    decreases v, 1
  {
    match v
    case Null => "N;"
    case Bool(b) => "b:" + (if b then "1" else "0") + ";"
    case Int(i) => "i:" + IntToString(i) + ";"
    case Str(s) => SerializeStr(s)
    case Array(es) => "a:" + NatToString(|es|) + ":{" + SerializeEntries(v, 0) + "}"
  }

  /** The entries of the array `v` from index `i` on, each as key then value. */
  function SerializeEntries(v: Value, i: nat): string
    requires v.Array? && i <= |v.entries|
    decreases v, 0, |v.entries| - i
  {
    if i == |v.entries| then ""
    else SerializeKey(v.entries[i].0) + Serialize(v.entries[i].1) + SerializeEntries(v, i + 1)
  }

  /** After `s:`: the length, a colon, the quoted characters and `";`. */
  function ParseStrBody(s: string): (r: Option<(string, string)>)
    ensures r.Some? ==> |r.value.1| < |s|
  {
    match ParseNatUntil(s, ':')
    case None => None
    case Some((n, r)) =>
      if |r| >= n + 3 && r[0] == '"' && r[n + 1] == '"' && r[n + 2] == ';'
      then Some((r[1..n + 1], r[n + 3..]))
      else None
  }

  function ParseKey(s: string): (r: Option<(Key, string)>)
    ensures r.Some? ==> |r.value.1| < |s|
  {
    if |s| < 2 || s[1] != ':' then None
    else if s[0] == 'i' then
      match ParseIntUntil(s[2..], ';')
      case None => None
      case Some((i, rest)) => Some((IntKey(i), rest))
    else if s[0] == 's' then
      match ParseStrBody(s[2..])
      case None => None
      case Some((str, rest)) => Some((StrKey(str), rest))
    else None
  }

  /** Parses one value from the front of `s` and returns it with what follows. */
  function ParseValue(s: string): (r: Option<(Value, string)>)
    ensures r.Some? ==> |r.value.1| < |s|
    ensures r.Some? ==> |s| >= 2 && s[0] == Tag(r.value.0)
    ensures r.Some? && (r.value.0.Null? || r.value.0.Bool?) ==> s == Serialize(r.value.0) + r.value.1
    decreases |s|, 1
  {
    if |s| < 2 then None
    else if s[0] == 'N' && s[1] == ';' then Some((Null, s[2..]))
    else if s[1] != ':' then None
    else if s[0] == 'b' then
      if |s| >= 4 && (s[2] == '0' || s[2] == '1') && s[3] == ';'
      then Some((Bool(s[2] == '1'), s[4..]))
      else None
    else if s[0] == 'i' then
      match ParseIntUntil(s[2..], ';')
      case None => None
      case Some((i, rest)) => Some((Int(i), rest))
    else if s[0] == 's' then
      match ParseStrBody(s[2..])
      case None => None
      case Some((str, rest)) => Some((Str(str), rest))
    else if s[0] == 'a' then
      match ParseNatUntil(s[2..], ':')
      case None => None
      case Some((n, r)) =>
        if |r| == 0 || r[0] != '{' then None
        else
          match ParseEntries(r[1..], n)
          case None => None
          case Some((es, r2)) =>
            if |r2| == 0 || r2[0] != '}' then None
            else Some((Array(es), r2[1..]))
    else None
  }

  /** Parses `n` key/value pairs from the front of `s`. */
  function ParseEntries(s: string, n: nat): (r: Option<(seq<(Key, Value)>, string)>)
    ensures r.Some? ==> |r.value.1| <= |s|
    decreases |s|, n
  {
    if n == 0 then Some(([], s))
    else
      match ParseKey(s)
      case None => None
      case Some((k, r1)) =>
        match ParseValue(r1)
        case None => None
        case Some((v, r2)) =>
          match ParseEntries(r2, n - 1)
          case None => None
          case Some((es, r3)) => Some(([(k, v)] + es, r3))
  }

  /** unserialize(): one whole value, nothing after it; None where PHP returns false. */
  function Unserialize(s: string): (r: Option<Value>)
    ensures r.Some? ==> |s| >= 2 && s[0] == Tag(r.value)
    ensures r.Some? && (r.value.Null? || r.value.Bool?) ==> s == Serialize(r.value)
  {
    match ParseValue(s)
    case Some((v, rest)) => if rest == [] then Some(v) else None
    case None => None
  }

  lemma QuotedParts(str: string, rest: string)
    ensures var r := ['"'] + str + ['"', ';'] + rest; var n := |str|;
      |r| >= n + 3 && r[0] == '"' && r[n + 1] == '"' && r[n + 2] == ';' &&
      r[1..n + 1] == str && r[n + 3..] == rest
  {
  }

  /** Regrouping of a serialized string body around the colon after its length. */
  lemma StrBodyRegroup(ds: string, str: string, rest: string)
    ensures ds + ":\"" + str + "\";" + rest == ds + [':'] + (['"'] + str + ['"', ';'] + rest)
  {
  }

  lemma ParseStrBodyRoundTrip(str: string, rest: string)
    ensures ParseStrBody(NatToString(|str|) + ":\"" + str + "\";" + rest) == Some((str, rest))
  {
    var n := |str|;
    var r := ['"'] + str + ['"', ';'] + rest;
    StrBodyRegroup(NatToString(n), str, rest);
    ParseNatUntilRoundTrip(n, ':', r);
    QuotedParts(str, rest);
  }

  /** The layout of a tagged record `c:<mid><t><rest>`. */
  lemma TaggedParts(c: char, mid: string, t: char, rest: string)
    ensures var s := [c, ':'] + mid + [t] + rest;
      |s| >= 2 && s[0] == c && s[1] == ':' && s[2..] == mid + [t] + rest
  {
    var s := [c, ':'] + mid + [t] + rest;
    assert s == [c, ':'] + (mid + [t] + rest);
  }

  /** The layout of a serialized string `s:<len>:"<chars>";<rest>`. */
  lemma StrParts(ds: string, str: string, rest: string)
    ensures var s := "s:" + ds + ":\"" + str + "\";" + rest;
      |s| >= 2 && s[0] == 's' && s[1] == ':' && s[2..] == ds + ":\"" + str + "\";" + rest
  {
    var s := "s:" + ds + ":\"" + str + "\";" + rest;
    assert s == "s:" + (ds + ":\"" + str + "\";" + rest);
  }

  /** The layout of a serialized array `a:<count>:{<entries>}<rest>`. */
  lemma ArrayParts(ds: string, body: string, rest: string)
    ensures var s := "a:" + ds + ":{" + body + "}" + rest;
      var r := ['{'] + (body + (['}'] + rest));
      |s| >= 2 && s[0] == 'a' && s[1] == ':' && s[2..] == ds + [':'] + r &&
      r[0] == '{' && r[1..] == body + (['}'] + rest) &&
      (['}'] + rest)[0] == '}' && (['}'] + rest)[1..] == rest
  {
    var s := "a:" + ds + ":{" + body + "}" + rest;
    assert s == "a:" + (ds + [':'] + (['{'] + (body + (['}'] + rest))));
  }

  lemma ParseKeyRoundTrip(k: Key, rest: string)
    ensures ParseKey(SerializeKey(k) + rest) == Some((k, rest))
  {
    match k
    case IntKey(i) =>
      TaggedParts('i', IntToString(i), ';', rest);
      ParseIntUntilRoundTrip(i, ';', rest);
    case StrKey(str) =>
      StrParts(NatToString(|str|), str, rest);
      ParseStrBodyRoundTrip(str, rest);
  }

  lemma {:induction false} ParseValueRoundTrip(v: Value, rest: string)
    ensures ParseValue(Serialize(v) + rest) == Some((v, rest))
    decreases v, 1
  {
    match v
    case Null =>
    case Bool(b) =>
      TaggedParts('b', if b then "1" else "0", ';', rest);
    case Int(i) =>
      TaggedParts('i', IntToString(i), ';', rest);
      ParseIntUntilRoundTrip(i, ';', rest);
    case Str(str) =>
      StrParts(NatToString(|str|), str, rest);
      ParseStrBodyRoundTrip(str, rest);
    case Array(es) =>
      var body := SerializeEntries(v, 0);
      ArrayParts(NatToString(|es|), body, rest);
      ParseNatUntilRoundTrip(|es|, ':', ['{'] + (body + (['}'] + rest)));
      ParseEntriesRoundTrip(v, 0, ['}'] + rest);
      assert es[0..] == es;
  }

  /** The layout of one serialized entry followed by the later ones. */
  lemma EntryParts(ks: string, xs: string, more: string, rest: string)
    ensures ks + xs + more + rest == ks + (xs + (more + rest))
  {
  }

  lemma {:induction false} ParseEntriesRoundTrip(v: Value, i: nat, rest: string)
    requires v.Array? && i <= |v.entries|
    ensures ParseEntries(SerializeEntries(v, i) + rest, |v.entries| - i) == Some((v.entries[i..], rest))
    decreases v, 0, |v.entries| - i
  {
    var es := v.entries;
    if i < |es| {
      var k, x := es[i].0, es[i].1;
      var more := SerializeEntries(v, i + 1);
      var s := SerializeEntries(v, i) + rest;
      EntryParts(SerializeKey(k), Serialize(x), more, rest);
      assert s == SerializeKey(k) + (Serialize(x) + (more + rest));
      ParseKeyRoundTrip(k, Serialize(x) + (more + rest));
      ParseValueRoundTrip(x, more + rest);
      ParseEntriesRoundTrip(v, i + 1, rest);
      assert ParseEntries(more + rest, |es| - i - 1) == Some((es[i + 1..], rest));
      assert [(k, x)] + es[i + 1..] == es[i..];
    } else {
      EntriesEnd(v, rest);
    }
  }

  /** Past the last entry nothing is written, and reading no more entries consumes nothing. */
  lemma EntriesEnd(v: Value, rest: string)
    requires v.Array?
    ensures SerializeEntries(v, |v.entries|) + rest == rest
    ensures ParseEntries(rest, 0) == Some((v.entries[|v.entries|..], rest))
  {
    assert v.entries[|v.entries|..] == [];
  }

  /** unserialize(serialize($v)) gives back `v`. */
  lemma UnserializeSerialize(v: Value)
    ensures Unserialize(Serialize(v)) == Some(v)
  {
    ParseValueRoundTrip(v, "");
    assert Serialize(v) + "" == Serialize(v);
  }

  /** Distinct values serialize to distinct texts. */
  lemma SerializeInjective(a: Value, b: Value)
    requires Serialize(a) == Serialize(b)
    ensures a == b
  {
    UnserializeSerialize(a);
    UnserializeSerialize(b);
  }
}
