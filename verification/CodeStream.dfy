/** Writing expressions into a growing buffer and reading them at a moving offset. */
module CodeStream {
  import opened Wrappers
  import opened Wire
  import opened Code

  class Encoder {
    var buf: seq<Byte>

    constructor ()
      ensures buf == []
    {
      buf := [];
    }

    method PutText(s: seq<Byte>)
      modifies this
      ensures buf == old(buf) + Wire.Text(s)
    {
      hide Word;
      var pad: seq<Byte> := seq(Aligned(|s|) - |s|, _ => 0);
      buf := buf + Word(|s|);
      buf := buf + s;
      buf := buf + pad;
      assert buf == old(buf) + (Word(|s|) + s + pad);
    }

    /** Appends the bytes of `e`; when a part cannot be sent, stops with some bytes already appended. */
    method WriteCode(e: Node) returns (ok: bool)
      modifies this
      ensures ok <==> Sendable(e)
      ensures if ok then buf == old(buf) + Write(e) else old(buf) <= buf
      decreases e, 2
    {
      hide Word, Body;
      buf := buf + Word(Tag(e));
      if e.Local? {
        return false;
      }
      ghost var b0 := buf;
      ok := WriteBody(e);
      if ok {
        Assoc(old(buf), Word(Tag(e)), Body(e));
      }
    }

    method WriteBody(e: Node) returns (ok: bool)
      requires !e.Local?
      modifies this
      ensures ok <==> Sendable(e)
      ensures if ok then buf == old(buf) + Body(e) else old(buf) <= buf
      decreases e, 1
    {
      hide Word, Half, Wire.Text, Write, WriteAll;
      ghost var b0 := buf;
      ok := true;
      match e {
        case Leaf(_) =>
        case Bool(b) => buf := buf + Word(Flag(b));
        case Number(_, n) => buf := buf + Word(n);
        case Interval(s, t, so, to) =>
          buf := buf + Word(s);
          buf := buf + Word(t);
          buf := buf + Half(so);
          buf := buf + Half(to);
          assert buf == b0 + Body(e);
        case Symbol(s, ref) =>
          PutText(s);
          buf := buf + Word(Flag(ref));
          assert buf == b0 + Body(e);
        case Text(_, s) => PutText(s);
        case Unop(op, a) =>
          buf := buf + Word(op);
          ok := WriteCode(a);
          if ok { Assoc(b0, Word(op), Write(a)); }
        case Binop(op, a, b) =>
          buf := buf + Word(op);
          ok := WritePair(e, a, b);
          if ok { Assoc(b0, Word(op), Write(a) + Write(b)); }
        case ExprList(es) => ok := WriteCounted(es);
        case Two(_, a, b) => ok := WritePair(e, a, b);
        case For(a) => ok := WriteCode(a);
        case Arg(ref, a) =>
          buf := buf + Word(Flag(ref));
          ok := WriteCode(a);
          if ok { Assoc(b0, Word(Flag(ref)), Write(a)); }
        case IfElse(_, _, _) => ok := WriteParts(e);
        case Tagged(_, _, _) => ok := WriteParts(e);
        case Function(_, _) => ok := WriteParts(e);
        case Funcall(_, _) => ok := WriteParts(e);
      }
    }

    /** The kinds whose parts follow one another without a word before them. */
    method WriteParts(e: Node) returns (ok: bool)
      requires e.IfElse? || e.Tagged? || e.Function? || e.Funcall?
      modifies this
      ensures ok <==> Sendable(e)
      ensures if ok then buf == old(buf) + Body(e) else old(buf) <= buf
      decreases e, 0, 1
    {
      hide Word, Wire.Text, Write, WriteAll, WriteList, WriteSymbol;
      ghost var b0 := buf;
      match e {
        case IfElse(a, b, c) =>
          ok := WritePair(e, a, b);
          if ok {
            ok := WriteCode(c);
            if ok { Assoc(b0, Write(a) + Write(b), Write(c)); }
          }
        case Tagged(s, ref, a) =>
          PutSymbol(s, ref);
          ok := WriteCode(a);
          if ok { Assoc(b0, WriteSymbol(s, ref), Write(a)); }
        case Function(fs, b) =>
          ok := WriteArgs(fs);
          if ok {
            ok := WriteCode(b);
            if ok { Assoc(b0, WriteList(fs), Write(b)); }
          }
        case Funcall(a, es) =>
          ok := WriteCode(a);
          if ok {
            ok := WriteArgs(es);
            if ok { Assoc(b0, Write(a), WriteList(es)); }
          }
      }
    }

    method PutSymbol(s: seq<Byte>, ref: bool)
      modifies this
      ensures buf == old(buf) + WriteSymbol(s, ref)
    {
      hide Word, Wire.Text;
      buf := buf + Word(9);
      PutText(s);
      buf := buf + Word(Flag(ref));
      assert buf == old(buf) + (Word(9) + (Wire.Text(s) + Word(Flag(ref))));
    }

    method WritePair(ghost e: Node, a: Node, b: Node) returns (ok: bool)
      requires a < e && b < e
      modifies this
      ensures ok <==> Sendable(a) && Sendable(b)
      ensures if ok then buf == old(buf) + (Write(a) + Write(b)) else old(buf) <= buf
      decreases e, 0, 0
    {
      hide Write, Sendable;
      ok := WriteCode(a);
      if ok {
        ghost var b0 := old(buf);
        ok := WriteCode(b);
        if ok { Assoc(b0, Write(a), Write(b)); }
      }
    }

    /** The number of expressions, then each of them. */
    method WriteCounted(es: seq<Node>) returns (ok: bool)
      modifies this
      ensures ok <==> forall k :: 0 <= k < |es| ==> Sendable(es[k])
      ensures if ok then buf == old(buf) + (Word(|es|) + WriteAll(es)) else old(buf) <= buf
      decreases es, 0
    {
      hide Word, Write, Sendable, WriteAll;
      buf := buf + Word(|es|);
      ghost var b0 := buf;
      WriteAllEmpty();
      assert es[..0] == [];
      for i := 0 to |es|
        invariant forall k :: 0 <= k < i ==> Sendable(es[k])
        invariant buf == b0 + WriteAll(es[..i])
      {
        var sent := WriteCode(es[i]);
        if !sent {
          return false;
        }
        WriteAllNext(es, i);
        Assoc(b0, WriteAll(es[..i]), Write(es[i]));
      }
      assert es[..|es|] == es;
      Assoc(old(buf), Word(|es|), WriteAll(es));
      ok := true;
    }

    method WriteArgs(es: seq<Node>) returns (ok: bool)
      modifies this
      ensures ok <==> forall k :: 0 <= k < |es| ==> Sendable(es[k])
      ensures if ok then buf == old(buf) + WriteList(es) else old(buf) <= buf
      decreases es, 1
    {
      hide Word, Sendable, WriteAll;
      buf := buf + Word(16);
      ok := WriteCounted(es);
      if ok { Assoc(old(buf), Word(16), Word(|es|) + WriteAll(es)); }
    }
  }

  lemma WriteAllEmpty()
    ensures WriteAll([]) == []
  {}

  lemma {:induction false} WriteAllNext(es: seq<Node>, i: nat)
    requires i < |es| && forall k :: 0 <= k <= i ==> Sendable(es[k])
    ensures WriteAll(es[..i + 1]) == WriteAll(es[..i]) + Write(es[i])
  {
    hide Write, Sendable;
    if i == 0 {
      assert es[..1][1..] == [] && es[..0] == [];
      assert WriteAll(es[..1]) == Write(es[0]) + WriteAll([]);
    } else {
      WriteAllNext(es[1..], i - 1);
      assert es[..i + 1][1..] == es[1..][..i] && es[..i][1..] == es[1..][..i - 1];
      Assoc(Write(es[0]), WriteAll(es[1..][..i - 1]), Write(es[i]));
    }
  }

  /** The outcome `r` of reading at an offset, with `o` the offset after, is what parsing the remaining bytes gives. */
  ghost predicate Reads<T>(p: Parsed<T>, buf: seq<Byte>, r: Option<T>, o: nat) {
    match r
    case None => p == Err
    case Some(v) => o <= |buf| && p == Ok(v, buf[o..])
  }

  method ReadWord(buf: seq<Byte>, off: nat) returns (r: Option<nat>, o: nat)
    requires off <= |buf|
    ensures Reads(ParseWord(buf[off..]), buf, r, o) && (r.Some? ==> off < o)
  {
    o := off;
    if |buf| - off < 8 {
      return None, o;
    }
    r, o := Some(UnLE(buf[off..off + 8])), off + 8;
    assert buf[off..][..8] == buf[off..off + 8] && buf[off..][8..] == buf[off + 8..];
  }

  method ReadHalf(buf: seq<Byte>, off: nat) returns (r: Option<nat>, o: nat)
    requires off <= |buf|
    ensures Reads(ParseHalf(buf[off..]), buf, r, o) && (r.Some? ==> off < o)
  {
    o := off;
    if |buf| - off < 4 {
      return None, o;
    }
    r, o := Some(UnLE(buf[off..off + 4])), off + 4;
    assert buf[off..][..4] == buf[off..off + 4] && buf[off..][4..] == buf[off + 4..];
  }

  method ReadText(buf: seq<Byte>, off: nat) returns (r: Option<seq<Byte>>, o: nat)
    requires off <= |buf|
    ensures Reads(ParseText(buf[off..]), buf, r, o) && (r.Some? ==> off < o)
  {
    var n;
    n, o := ReadWord(buf, off);
    if n == None {
      return None, o;
    }
    var len := n.value % TWO32;
    if |buf| - o < Aligned(len) {
      return None, o;
    }
    assert buf[o..][..len] == buf[o..o + len] && buf[o..][Aligned(len)..] == buf[o + Aligned(len)..];
    r, o := Some(buf[o..o + len]), o + Aligned(len);
  }

  method ReadSymbol(buf: seq<Byte>, off: nat) returns (r: Option<Node>, o: nat)
    requires off <= |buf|
    ensures Reads(ParseSymbol(buf[off..]), buf, r, o) && (r.Some? ==> off < o)
  {
    hide ParseText, ParseWord;
    var s, ref;
    s, o := ReadText(buf, off);
    if s == None {
      return None, o;
    }
    ref, o := ReadWord(buf, o);
    if ref == None {
      return None, o;
    }
    r := Some(Symbol(s.value, ref.value != 0));
  }

  method ReadInterval(buf: seq<Byte>, off: nat) returns (r: Option<Node>, o: nat)
    requires off <= |buf|
    ensures Reads(ParseInterval(buf[off..]), buf, r, o) && (r.Some? ==> off < o)
  {
    hide ParseHalf, ParseWord;
    var d1, d2, s1, s2;
    d1, o := ReadWord(buf, off);
    if d1 == None { return None, o; }
    d2, o := ReadWord(buf, o);
    if d2 == None { return None, o; }
    s1, o := ReadHalf(buf, o);
    if s1 == None { return None, o; }
    s2, o := ReadHalf(buf, o);
    if s2 == None { return None, o; }
    r := Some(Interval(d1.value, d2.value, s1.value, s2.value));
  }

  /** One expression at the offset. */
  method ReadCode(buf: seq<Byte>, off: nat) returns (r: Option<Node>, o: nat)
    requires off <= |buf|
    ensures Reads(Parse(buf[off..]), buf, r, o) && (r.Some? ==> off < o)
    decreases |buf| - off, 1
  {
    hide ParseBody, ParseWord;
    var t;
    t, o := ReadWord(buf, off);
    if t == None {
      return None, o;
    }
    r, o := ReadBody(t.value, buf, o);
  }

  method ReadBody(t: nat, buf: seq<Byte>, off: nat) returns (r: Option<Node>, o: nat)
    requires off <= |buf|
    ensures Reads(ParseBody(t, buf[off..]), buf, r, o) && (r.Some? ==> off <= o)
    decreases |buf| - off, 4
  {
    hide ParseWithWord, ParseTwo, Parse, ParseText, ParseSymbol, ParseInterval;
    o := off;
    var x, p, c;
    match t {
      case 1 => r := Some(Leaf(Null));
      case 2 => r := Some(Leaf(Next));
      case 3 => r := Some(Leaf(Break));
      case 8 => r, o := ReadInterval(buf, o);
      case 9 => r, o := ReadSymbol(buf, o);
      case 10 =>
        x, o := ReadText(buf, o);
        r := if x.Some? then Some(Node.Text(String, x.value)) else None;
      case 11 =>
        x, o := ReadText(buf, o);
        r := if x.Some? then Some(Node.Text(BoundVar, x.value)) else None;
      case 17 =>
        p, o := ReadTwo(buf, o);
        r := if p.Some? then Some(Two(While, p.value.0, p.value.1)) else None;
      case 18 =>
        p, o := ReadTwo(buf, o);
        if p == None { return None, o; }
        c, o := ReadCode(buf, o);
        r := if c.Some? then Some(IfElse(p.value.0, p.value.1, c.value)) else None;
      case 19 =>
        c, o := ReadCode(buf, o);
        r := if c.Some? then Some(For(c.value)) else None;
      case 20 =>
        p, o := ReadTwo(buf, o);
        r := if p.Some? then Some(Two(LeftAssign, p.value.0, p.value.1)) else None;
      case 21 =>
        p, o := ReadTwo(buf, o);
        r := if p.Some? then Some(Two(SpecialAssign, p.value.0, p.value.1)) else None;
      case 22 =>
        p, o := ReadTwo(buf, o);
        r := if p.Some? then Some(Two(Request, p.value.0, p.value.1)) else None;
      case 23 =>
        p, o := ReadTwo(buf, o);
        r := if p.Some? && p.value.0.Symbol? then Some(Tagged(p.value.0.name, p.value.0.ref, p.value.1)) else None;
      case 24 =>
        p, o := ReadTwo(buf, o);
        r := if p.Some? && p.value.0.ExprList? then Some(Function(p.value.0.es, p.value.1)) else None;
      case 25 =>
        p, o := ReadTwo(buf, o);
        r := if p.Some? && p.value.1.ExprList? then Some(Funcall(p.value.0, p.value.1.es)) else None;
      case _ => r, o := ReadWithWord(t, buf, o);
    }
  }

  method ReadWithWord(t: nat, buf: seq<Byte>, off: nat) returns (r: Option<Node>, o: nat)
    requires off <= |buf|
    ensures Reads(ParseWithWord(t, buf[off..]), buf, r, o) && (r.Some? ==> off < o)
    decreases |buf| - off, 3
  {
    hide ParseWord, ParseTwo, Parse, ParseAll;
    var w, a, p;
    w, o := ReadWord(buf, off);
    if w == None {
      return None, o;
    }
    match t {
      case 5 => r := Some(Bool(w.value != 0));
      case 6 => r := Some(Number(Double, w.value));
      case 7 => r := Some(Number(Dtime, w.value));
      case 14 =>
        a, o := ReadCode(buf, o);
        r := if a.Some? then Some(Unop(w.value % TWO32, a.value)) else None;
      case 15 =>
        p, o := ReadTwo(buf, o);
        r := if p.Some? then Some(Binop(w.value % TWO32, p.value.0, p.value.1)) else None;
      case 16 =>
        var l: Option<seq<Node>>;
        l, o := ReadAll(buf, o, w.value % TWO32);
        r := if l.Some? then Some(ExprList(l.value)) else None;
      case 27 =>
        a, o := ReadCode(buf, o);
        r := if a.Some? then Some(Arg(w.value != 0, a.value)) else None;
      case _ => r := None;
    }
  }

  method ReadTwo(buf: seq<Byte>, off: nat) returns (r: Option<(Node, Node)>, o: nat)
    requires off <= |buf|
    ensures Reads(ParseTwo(buf[off..]), buf, r, o) && (r.Some? ==> off < o)
    decreases |buf| - off, 2
  {
    hide Parse;
    var a, b;
    a, o := ReadCode(buf, off);
    if a == None { return None, o; }
    b, o := ReadCode(buf, o);
    if b == None { return None, o; }
    r := Some((a.value, b.value));
  }

  method ReadAll(buf: seq<Byte>, off: nat, n: nat) returns (r: Option<seq<Node>>, o: nat)
    requires off <= |buf|
    ensures Reads(ParseAll(buf[off..], n), buf, r, o) && (r.Some? ==> off <= o)
    decreases |buf| - off, 2
  {
    hide Parse;
    var es: seq<Node> := [];
    o := off;
    PrependNothing(ParseAll(buf[off..], n));
    for i := 0 to n
      invariant off <= o <= |buf|
      invariant ParseAll(buf[off..], n) == Prepend(es, ParseAll(buf[o..], n - i))
    {
      var a;
      var next;
      a, next := ReadCode(buf, o);
      if a == None {
        return None, next;
      }
      PrependNext(es, a.value, ParseAll(buf[next..], n - i - 1));
      es, o := es + [a.value], next;
    }
    assert es + [] == es;
    r := Some(es);
  }

  function Prepend(es: seq<Node>, p: Parsed<seq<Node>>): Parsed<seq<Node>> {
    match p
    case Err => Err
    case Ok(l, rest) => Ok(es + l, rest)
  }

  lemma PrependNothing(p: Parsed<seq<Node>>)
    ensures Prepend([], p) == p
  {
    if p.Ok? { assert [] + p.v == p.v; }
  }

  lemma PrependNext(es: seq<Node>, a: Node, p: Parsed<seq<Node>>)
    ensures Prepend(es + [a], p) == Prepend(es, Prepend([a], p))
  {
    if p.Ok? { assert (es + [a]) + p.v == es + ([a] + p.v); }
  }
}
