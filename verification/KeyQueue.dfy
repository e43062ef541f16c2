/**
 The key queue as it is in memory: linked nodes with fixed text buffers, the last of which may
 still grow while the first are taken off. Proved to do what `Keystrokes` says.
 */
module KeyQueue {
  import opened Keystrokes

  datatype Kind = KEY_EVENT | KEY_TEXT

  class KeyData {
    var kind: Kind
    var count: nat
    var value: nat
    const text: array<char>
    var next: KeyData?

    /** All fields zero. */
    constructor ()
      ensures kind == KEY_EVENT && count == 0 && value == 0 && next == null
      ensures fresh(text) && text.Length == TEXT_SIZE
    {
      kind, count, value, next := KEY_EVENT, 0, 0, null;
      text := new char[TEXT_SIZE];
    }

    ghost predicate Ready()
      reads this`kind, this`count, this`value
    {
      text.Length == TEXT_SIZE && count <= TEXT_SIZE && value <= LAST_KEY && (kind == KEY_TEXT ==> count > 0)
    }

    ghost function AsNode(): Node
      requires Ready()
      reads this`kind, this`count, this`value, text
    {
      if kind == KEY_TEXT then Text(text[..count]) else Event(value)
    }

    /** Adds a character; the node becomes a text node if it was empty. */
    method Put(c: char)
      requires Ready() && count < TEXT_SIZE && (kind == KEY_TEXT || count == 0)
      modifies this`kind, this`count, text
      ensures Ready() && kind == KEY_TEXT && count == old(count) + 1
      ensures AsNode() == Text(old(text[..count]) + [c])
    {
      ghost var before := text[..count];
      kind := KEY_TEXT;
      text[count] := c;
      count := count + 1;
      assert text[..count] == before + [c];
    }
  }

  ghost function View(s: seq<KeyData>): (q: seq<Node>)
    requires forall i :: 0 <= i < |s| ==> s[i].Ready()
    reads s`kind, s`count, s`value, set k | k in s :: k.text
    ensures |q| == |s|
    ensures forall i :: 0 <= i < |s| ==> q[i] == s[i].AsNode()
  {
    if s == [] then [] else [s[0].AsNode()] + View(s[1..])
  }

  class KeyQueue {
    var keylist: KeyData?
    var last: KeyData?
    ghost var nodes: seq<KeyData>

    constructor ()
      ensures Valid() && nodes == []
    {
      keylist, last, nodes := null, null, [];
    }

    ghost predicate Linked()
      reads this, nodes`next
    {
      && (keylist == if nodes == [] then null else nodes[0])
      && (last == if nodes == [] then null else nodes[|nodes| - 1])
      && (nodes != [] ==> nodes[|nodes| - 1].next == null)
      && (forall i :: 0 <= i < |nodes| - 1 ==> nodes[i].next == nodes[i + 1])
    }

    ghost predicate Valid()
      reads this, nodes`next, nodes`kind, nodes`count, nodes`value
    {
      && Linked()
      && (forall i :: 0 <= i < |nodes| ==> nodes[i].Ready())
      && (forall i, j :: 0 <= i < j < |nodes| ==> nodes[i] != nodes[j] && nodes[i].text != nodes[j].text)
    }

    ghost function Queue(): seq<Node>
      requires Valid()
      reads this, nodes`next, nodes`kind, nodes`count, nodes`value, set k | k in nodes :: k.text
    {
      View(nodes)
    }

    /** Puts a node at the end. */
    method Append(k: KeyData)
      requires Valid() && k.Ready() && k.next == null
      requires forall i :: 0 <= i < |nodes| ==> nodes[i] != k && nodes[i].text != k.text
      modifies this, (if last != null then {last} else {})`next
      ensures Valid() && nodes == old(nodes) + [k] && last == k
      ensures Queue() == old(Queue()) + [k.AsNode()]
    {
      hide View;
      ghost var q := Queue();
      if keylist == null {
        keylist := k;
        last := k;
      } else {
        last.next := k;
        last := k;
      }
      nodes := nodes + [k];
      assert Queue() == q + [k.AsNode()];
    }

    /** A zeroed node, queued at once. */
    method Get() returns (k: KeyData)
      requires Valid()
      modifies this, (if last != null then {last} else {})`next
      ensures Valid() && nodes == old(nodes) + [k] && last == k && fresh(k) && fresh(k.text)
      ensures k.kind == KEY_EVENT && k.count == 0 && Queue() == old(Queue()) + [Event(0)]
    {
      hide View;
      k := new KeyData();
      Append(k);
    }

    method SetKeyValue(value: nat)
      requires Valid() && value <= LAST_KEY
      modifies this, (if last != null then {last} else {})`next
      ensures Valid() && Queue() == old(Queue()) + [Event(value)]
      ensures old(nodes) <= nodes
    {
      hide View;
      var k := Get();
      ghost var q := Queue();
      assert nodes[|q| - 1] == k && forall i :: 0 <= i < |q| - 1 ==> nodes[i] != nodes[|q| - 1];
      k.value := value;
      k.count := k.count + 1;
      assert forall i :: 0 <= i < |q| - 1 ==> nodes[i].AsNode() == q[i];
      assert Queue() == q[|q| - 1 := Event(value)];
    }

    /** Adds a character to the last node. */
    method PutChar(c: char)
      requires Valid() && last != null && last.count < TEXT_SIZE && (last.kind == KEY_TEXT || last.count == 0)
      modifies last`kind, last`count, last.text
      ensures Valid()
      ensures Queue() == old(Queue())[..|nodes| - 1] + [Text(old(last.text[..last.count]) + [c])]
    {
      hide View;
      ghost var q, n := Queue(), |nodes| - 1;
      ghost var text := last.text[..last.count] + [c];
      assert last == nodes[n] && forall i :: 0 <= i < n ==> nodes[i] != nodes[n] && nodes[i].text != nodes[n].text;
      last.Put(c);
      assert forall i :: 0 <= i < n ==> nodes[i].AsNode() == q[i];
      assert Queue() == q[..n] + [Text(text)];
    }

    method LastTakesMore() returns (more: bool)
      requires Valid()
      ensures more == Extends(Queue())
      ensures more ==> last != null && last.kind == KEY_TEXT && last.count < TEXT_SIZE
                       && Queue()[|nodes| - 1] == Text(last.text[..last.count])
    {
      hide View;
      assert last != null ==> Queue()[|nodes| - 1] == last.AsNode();
      more := last != null && last.kind == KEY_TEXT && last.count < TEXT_SIZE && last.text[last.count - 1] != '%';
    }

    method AddChar(c: char)
      requires Valid() && Printable(c)
      modifies this, if last != null then {last, last.text} else {}
      ensures Valid() && Queue() == Add(old(Queue()), [c]) && old(nodes) <= nodes
    {
      hide View, Valid, Extends;
      ghost var q := Queue();
      var more := LastTakesMore();
      if !more {
        var k := Get();
        assert Queue()[..|q|] == q && last.text[..last.count] + [c] == [c];
      }
      PutChar(c);
    }

    /** What the terminal sent for one key. */
    method AddKeylist(buf: string)
      requires Valid()
      modifies this, if last != null then {last, last.text} else {}
      ensures Valid() && Queue() == Add(old(Queue()), buf) && old(nodes) <= nodes
    {
      hide View, SpecialKey, Valid, Extends;
      if |buf| == 1 && Printable(buf[0]) {
        assert buf == [buf[0]];
        AddChar(buf[0]);
        return;
      }
      var value := SpecialKey(buf);
      if value != [] {
        SetKeyValue(value[0]);
      }
    }

    /** Takes the first node off. The node itself is not written again. */
    method TakeFirst() returns (k: KeyData?)
      requires Valid()
      modifies this
      ensures Valid() && (k == null <==> old(nodes) == [])
      ensures k == null ==> nodes == []
      ensures k != null ==> k == old(nodes)[0] && nodes == old(nodes)[1..] && k !in nodes
    {
      k := keylist;
      if k == null {
        return;
      }
      ghost var rest := nodes[1..];
      assert k.next == if rest == [] then null else rest[0];
      assert forall i :: 0 <= i < |rest| ==> rest[i] == nodes[i + 1];
      keylist := k.next;
      if keylist == null {
        last := null;
      }
      nodes := rest;
    }

    /** Takes the first node off and sends its command. */
    method SendCommand() returns (sent: bool, command: string)
      requires Valid()
      modifies this
      ensures Valid() && (sent <==> old(nodes) != [])
      ensures !sent ==> nodes == []
      ensures sent ==> nodes == old(nodes)[1..] && old(nodes)[0] !in nodes
      ensures sent ==> Queue() == old(Queue())[1..] && command == Command(old(Queue())[0])
    {
      hide View, Command, Linked;
      ghost var q := Queue();
      var k := TakeFirst();
      if k == null {
        return false, "";
      }
      assert k.AsNode() == q[0] && Queue() == q[1..];
      sent := true;
      if k.kind == KEY_EVENT {
        command := SetKeyEvent(k);
      } else {
        command := SetText(k);
      }
    }
  }

  /** The number, a zero byte and the terminator printed into a buffer of fixed size; what is sent ends before them. */
  method SetKeyEvent(k: KeyData) returns (command: string)
    requires k.Ready() && k.kind == KEY_EVENT
    ensures command == Command(k.AsNode())
  {
    hide Digits;
    var buf := new char[EVENT_BUFFER_SIZE];
    DigitsLength(k.value);
    var p := Print(buf, 0, "input keyevent ");
    p := Print(buf, p, Digits(k.value));
    p := Print(buf, p, "\r\n ");
    command := buf[..p];
    p := Print(buf, p, "\0\0");
  }

  lemma {:induction false} EscapeMore(text: string, c: char)
    ensures Escape(text + [c]) == Escape(text) + (if c == '"' then ['\\', '"'] else [c])
    decreases |text|
  {
    if text != "" {
      EscapeMore(text[1..], c);
      assert (text + [c])[1..] == text[1..] + [c];
    } else {
      assert (text + [c])[1..] == "";
    }
  }

  lemma EscapeNothing()
    ensures Escape("") == ""
  {
  }

  /** Writes a string into the buffer. */
  method Print(buf: array<char>, at: nat, s: string) returns (end: nat)
    requires at + |s| <= buf.Length
    modifies buf
    ensures end == at + |s| && buf[..end] == old(buf[..at]) + s
  {
    end := at;
    for i := 0 to |s|
      invariant end == at + i && buf[..end] == old(buf[..at]) + s[..i]
    {
      buf[end] := s[i];
      end := end + 1;
      assert s[..i + 1] == s[..i] + [s[i]];
      assert buf[..end] == buf[..end - 1] + [s[i]];
    }
    assert s[..|s|] == s;
  }

  /** The text between quotation marks, those inside it escaped, built in a buffer of fixed size. */
  method SetText(k: KeyData) returns (command: string)
    requires k.Ready() && k.kind == KEY_TEXT
    ensures command == Command(k.AsNode())
  {
    hide Escape;
    var buf := new char[TEXT_BUFFER_SIZE];
    EscapeNothing();
    var p := Print(buf, 0, "input text \"");
    ghost var text := k.text[..k.count];
    for i := 0 to k.count
      invariant p <= 12 + 2 * i && buf[..p] == "input text \"" + Escape(text[..i])
    {
      EscapeMore(text[..i], text[i]);
      assert text[..i + 1] == text[..i] + [text[i]];
      if k.text[i] == '"' {
        p := Print(buf, p, ['\\']);
      }
      p := Print(buf, p, [k.text[i]]);
    }
    assert text[..k.count] == text;
    p := Print(buf, p, "\"\r\n ");
    command := buf[..p];
    p := Print(buf, p, "\0");
  }
}
