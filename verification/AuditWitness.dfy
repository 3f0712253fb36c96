/**
 * A codec that keeps every law the audit store relies on, so that none of them is an empty
 * promise: records spelled in zeros and ones, ended by a two.
 */
module AuditWitness {
  import opened Wrappers
  import opened AuditChain
  import opened AuditCodec

  const END: byte := 2

  /** Zeros and ones up to a single end. */
  predicate Ends(s: Bytes) {
    s != [] && s[|s| - 1] == END && forall i :: 0 <= i < |s| - 1 ==> s[i] < END
  }

  // Each of these spells its value in front of what follows it.

  function Num(n: nat, tail: Bytes): (s: Bytes)
    ensures Ends(tail) ==> Ends(s)
  {
    if n == 0 then [0] + tail else [1] + Num(n - 1, tail)
  }

  function Text(t: string, tail: Bytes): (s: Bytes)
    ensures Ends(tail) ==> Ends(s)
  {
    if t == "" then [0] + tail else [1] + Num(t[0] as nat, Text(t[1..], tail))
  }

  function Int(i: int, tail: Bytes): (s: Bytes)
    ensures Ends(tail) ==> Ends(s)
  {
    if i < 0 then [0] + Num(-i, tail) else [1] + Num(i, tail)
  }

  function Tuple(f: Fields, tail: Bytes): (s: Bytes)
    ensures Ends(tail) ==> Ends(s)
  {
    Text(f.at, Text(f.action, Text(f.user, Text(f.device, Text(f.ip, Text(f.details, tail))))))
  }

  function Hash(d: Digest, tail: Bytes): (s: Bytes)
    ensures Ends(tail) ==> Ends(s)
    decreases d
  {
    match d
    case Blank => Num(0, tail)
    case Genesis => Num(1, tail)
    case Keyed(seqNo, prev, fields) => Num(2, Int(seqNo, Hash(prev, Tuple(fields, tail))))
    case Legacy(index, text, prev) => Num(3, Int(index, Text(text, Hash(prev, tail))))
    case Foreign(text) => Num(4, Text(text, tail))
  }

  function Encode(e: Entry): (s: Bytes)
    ensures Ends(s)
  {
    Int(e.index, Tuple(e.fields, Hash(e.prev, Hash(e.hash, [END]))))
  }

  function EndOf(s: Bytes): (p: nat)
    ensures p <= |s|
  {
    if s == [] || s[0] == END then 0 else 1 + EndOf(s[1..])
  }

  ghost predicate Spells(s: Bytes, e: Entry) {
    Encode(e) == s
  }

  ghost function Spelled(s: Bytes): Option<Entry> {
    if exists e :: Spells(s, e) then
      var e :| Spells(s, e);
      Some(e)
    else None
  }

  type Values = Bytes -> Option<Entry>

  function DecodeHere(value: Values, s: Bytes): Option<Decoded> {
    var p := EndOf(s);
    if p == |s| then None
    else
      match value(s[..p + 1])
      case None => None
      case Some(e) => Some(Decoded(e, p + 1))
  }

  function Decode(value: Values, s: Bytes): Option<Decoded> {
    if s != [] && s[0] == NEWLINE then
      match Decode(value, s[1..])
      case None => None
      case Some(d) => Some(Decoded(d.entry, d.used + 1))
    else DecodeHere(value, s)
  }

  ghost function Plain(): Codec {
    Codec(Encode, s => Decode(Spelled, s))
  }

  // ---------------------------------------------------------------- one spelling, one value

  lemma First(a: byte, b: byte, s: Bytes, t: Bytes)
    requires [a] + s == [b] + t
    ensures a == b && s == t
  {
    assert ([a] + s)[0] == a && ([b] + t)[0] == b;
    assert ([a] + s)[1..] == s && ([b] + t)[1..] == t;
  }

  lemma {:induction false} OneNum(a: nat, b: nat, s: Bytes, t: Bytes)
    requires Num(a, s) == Num(b, t)
    ensures a == b && s == t
  {
    First(if a == 0 then 0 else 1, if b == 0 then 0 else 1,
          if a == 0 then s else Num(a - 1, s), if b == 0 then t else Num(b - 1, t));
    if a > 0 {
      OneNum(a - 1, b - 1, s, t);
    }
  }

  lemma {:induction false} OneText(a: string, b: string, s: Bytes, t: Bytes)
    requires Text(a, s) == Text(b, t)
    ensures a == b && s == t
    decreases |a|
  {
    First(if a == "" then 0 else 1, if b == "" then 0 else 1,
          if a == "" then s else Num(a[0] as nat, Text(a[1..], s)),
          if b == "" then t else Num(b[0] as nat, Text(b[1..], t)));
    if a != "" {
      OneNum(a[0] as nat, b[0] as nat, Text(a[1..], s), Text(b[1..], t));
      OneText(a[1..], b[1..], s, t);
      assert a == [a[0]] + a[1..] && b == [b[0]] + b[1..];
    }
  }

  lemma OneInt(a: int, b: int, s: Bytes, t: Bytes)
    requires Int(a, s) == Int(b, t)
    ensures a == b && s == t
  {
    var m, n := if a < 0 then -a else a, if b < 0 then -b else b;
    First(if a < 0 then 0 else 1, if b < 0 then 0 else 1, Num(m, s), Num(n, t));
    OneNum(m, n, s, t);
  }

  lemma OneTuple(a: Fields, b: Fields, s: Bytes, t: Bytes)
    requires Tuple(a, s) == Tuple(b, t)
    ensures a == b && s == t
  {
    var a5, b5 := Text(a.details, s), Text(b.details, t);
    var a4, b4 := Text(a.ip, a5), Text(b.ip, b5);
    var a3, b3 := Text(a.device, a4), Text(b.device, b4);
    var a2, b2 := Text(a.user, a3), Text(b.user, b3);
    OneText(a.at, b.at, Text(a.action, a2), Text(b.action, b2));
    OneText(a.action, b.action, a2, b2);
    OneText(a.user, b.user, a3, b3);
    OneText(a.device, b.device, a4, b4);
    OneText(a.ip, b.ip, a5, b5);
    OneText(a.details, b.details, s, t);
  }

  function Tag(d: Digest): nat {
    match d
    case Blank => 0
    case Genesis => 1
    case Keyed(_, _, _) => 2
    case Legacy(_, _, _) => 3
    case Foreign(_) => 4
  }

  function Rest(d: Digest, tail: Bytes): Bytes {
    match d
    case Blank => tail
    case Genesis => tail
    case Keyed(seqNo, prev, fields) => Int(seqNo, Hash(prev, Tuple(fields, tail)))
    case Legacy(index, text, prev) => Int(index, Text(text, Hash(prev, tail)))
    case Foreign(text) => Text(text, tail)
  }

  lemma {:induction false} OneHash(a: Digest, b: Digest, s: Bytes, t: Bytes)
    requires Hash(a, s) == Hash(b, t)
    ensures a == b && s == t
    decreases a
  {
    OneNum(Tag(a), Tag(b), Rest(a, s), Rest(b, t));
    match a
    case Keyed(seqNo, prev, fields) =>
      OneInt(seqNo, b.seqNo, Hash(prev, Tuple(fields, s)), Hash(b.prev, Tuple(b.fields, t)));
      OneHash(prev, b.prev, Tuple(fields, s), Tuple(b.fields, t));
      OneTuple(fields, b.fields, s, t);
    case Legacy(index, text, prev) =>
      OneInt(index, b.index, Text(text, Hash(prev, s)), Text(b.text, Hash(b.prev, t)));
      OneText(text, b.text, Hash(prev, s), Hash(b.prev, t));
      OneHash(prev, b.prev, s, t);
    case Foreign(text) => OneText(text, b.text, s, t);
    case _ =>
  }

  lemma EncodeIsInjective(a: Entry, b: Entry)
    requires Encode(a) == Encode(b)
    ensures a == b
  {
    var ha, hb := Hash(a.hash, [END]), Hash(b.hash, [END]);
    OneInt(a.index, b.index, Tuple(a.fields, Hash(a.prev, ha)), Tuple(b.fields, Hash(b.prev, hb)));
    OneTuple(a.fields, b.fields, Hash(a.prev, ha), Hash(b.prev, hb));
    OneHash(a.prev, b.prev, ha, hb);
    OneHash(a.hash, b.hash, [END], [END]);
  }

  // ---------------------------------------------------------------- the laws

  lemma {:induction false} EndIsFirst(s: Bytes, p: nat)
    requires p <= |s| && (forall i :: 0 <= i < p ==> s[i] != END) && (p < |s| ==> s[p] == END)
    ensures EndOf(s) == p
    decreases |s|
  {
    if p > 0 {
      EndIsFirst(s[1..], p - 1);
    }
  }

  lemma TailsAgree(s: Bytes, t: Bytes, n: nat)
    requires 0 < n <= |s| && n <= |t| && t[..n] == s[..n]
    ensures t[0] == s[0] && t[1..][..n - 1] == s[1..][..n - 1]
  {
    assert t[0] == t[..n][0] && s[0] == s[..n][0];
    assert t[1..][..n - 1] == t[..n][1..] && s[1..][..n - 1] == s[..n][1..];
  }

  lemma {:induction false} EndIsStable(s: Bytes, t: Bytes)
    requires EndOf(s) < |s| && EndOf(s) < |t| && t[..EndOf(s) + 1] == s[..EndOf(s) + 1]
    ensures EndOf(t) == EndOf(s)
    decreases |s|
  {
    TailsAgree(s, t, EndOf(s) + 1);
    if s[0] != END {
      EndIsStable(s[1..], t[1..]);
    }
  }

  lemma {:induction false} DecodeIsBounded(value: Values, s: Bytes)
    ensures Decode(value, s).Some? ==> 0 < Decode(value, s).value.used <= |s|
    decreases |s|
  {
    if s != [] && s[0] == NEWLINE {
      DecodeIsBounded(value, s[1..]);
    }
  }

  lemma {:induction false} DecodeIsLocal(value: Values, s: Bytes, t: Bytes)
    requires Decode(value, s).Some? && Decode(value, s).value.used <= |s| && Decode(value, s).value.used <= |t|
    requires t[..Decode(value, s).value.used] == s[..Decode(value, s).value.used]
    ensures Decode(value, t) == Decode(value, s)
    decreases |s|
  {
    var used := Decode(value, s).value.used;
    DecodeIsBounded(value, s);
    TailsAgree(s, t, used);
    if s[0] == NEWLINE {
      DecodeIsBounded(value, s[1..]);
      DecodeIsLocal(value, s[1..], t[1..]);
    } else {
      DecodeHereIsLocal(value, s, t);
    }
  }

  lemma DecodeHereIsLocal(value: Values, s: Bytes, t: Bytes)
    requires DecodeHere(value, s).Some? && EndOf(s) < |t| && t[..EndOf(s) + 1] == s[..EndOf(s) + 1]
    ensures DecodeHere(value, t) == DecodeHere(value, s)
  {
    EndIsStable(s, t);
  }

  lemma DecodeInverts(e: Entry)
    ensures Decode(Spelled, Encode(e)) == Some(Decoded(e, |Encode(e)|))
    ensures NEWLINE !in Encode(e)
  {
    DecodesWhole(Spelled, Encode(e));
    SpelledIsMeant(Encode(e), e);
  }

  lemma DecodesWhole(value: Values, s: Bytes)
    requires Ends(s)
    ensures NEWLINE !in s
    ensures Decode(value, s) == if value(s).Some? then Some(Decoded(value(s).value, |s|)) else None
  {
    EndIsFirst(s, |s| - 1);
    assert s[..|s|] == s;
  }

  lemma SpelledIsMeant(s: Bytes, e: Entry)
    requires Spells(s, e)
    ensures Spelled(s) == Some(e)
  {
    forall d | Spells(s, d)
      ensures d == e
    {
      EncodeIsInjective(d, e);
    }
  }

  lemma CutIsUnread(e: Entry, s: Bytes)
    requires s <= Encode(e) && s != Encode(e)
    ensures Decode(Spelled, s).None?
  {
    assert s == Encode(e)[..|s|];
    assert forall i :: 0 <= i < |s| ==> s[i] == Encode(e)[i];
    EndIsFirst(s, |s|);
  }

  /** The laws can be kept, all of them at once. */
  lemma LawsCanBeKept()
    ensures Plain().Lawful()
  {
    var c := Plain();
    forall s
      ensures c.decode(s).Some? ==> 0 < c.decode(s).value.used <= |s|
      ensures c.SkipsNewline(s)
    {
      DecodeIsBounded(Spelled, s);
      assert ([NEWLINE] + s)[1..] == s;
    }
    forall s, t
      ensures c.SelfDelimiting(s, t)
    {
      if Decode(Spelled, s).Some? && Decode(Spelled, s).value.used <= |s| && Decode(Spelled, s).value.used <= |t|
         && t[..Decode(Spelled, s).value.used] == s[..Decode(Spelled, s).value.used]
      {
        DecodeIsLocal(Spelled, s, t);
      }
    }
    forall e
      ensures c.RoundTrips(e)
    {
      DecodeInverts(e);
    }
    forall e, s
      ensures c.CutIsUnread(e, s)
    {
      if s <= Encode(e) && s != Encode(e) {
        CutIsUnread(e, s);
      }
    }
  }
}
