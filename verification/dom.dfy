/** The fragment of the W3C DOM the generator builds: elements with an
    optional namespace, a tag, an ordered attribute list and ordered children. */
module Dom {
  import opened Results

  type Attr = (string, string)

  datatype Element = Element(ns: Option<string>, tag: string, attrs: seq<Attr>, children: seq<Element>)

  /** `Document.createElement`: no namespace, no attributes, no children. */
  function NewElement(tag: string): (e: Element)
    ensures e.tag == tag && e.ns == None && e.attrs == [] && e.children == []
  {
    Element(None, tag, [], [])
  }

  /** The attribute names, in order. */
  function Names(attrs: seq<Attr>): (r: seq<string>)
    ensures |r| == |attrs|
    ensures forall i :: 0 <= i < |attrs| ==> r[i] == attrs[i].0
  {
    if |attrs| == 0 then [] else [attrs[0].0] + Names(attrs[1..])
  }

  /** The value of the first attribute called `name`. */
  function Lookup(attrs: seq<Attr>, name: string): Option<string>
  {
    if |attrs| == 0 then None
    else if attrs[0].0 == name then Some(attrs[0].1)
    else Lookup(attrs[1..], name)
  }

  /** `Element.getAttribute`, with absence made explicit. */
  function GetAttr(e: Element, name: string): Option<string>
  {
    Lookup(e.attrs, name)
  }

  /** Replaces the value of the attribute called `name`, or appends it at the end. */
  function Put(attrs: seq<Attr>, name: string, value: string): (r: seq<Attr>)
    ensures Lookup(r, name) == Some(value)
    ensures forall n :: n != name ==> Lookup(r, n) == Lookup(attrs, n)
  {
    if |attrs| == 0 then [(name, value)]
    else if attrs[0].0 == name then [(name, value)] + attrs[1..]
    else [attrs[0]] + Put(attrs[1..], name, value)
  }

  /** An attribute is present exactly when its name is listed. */
  lemma {:induction false} LookupNames(attrs: seq<Attr>, name: string)
    ensures Lookup(attrs, name).Some? <==> name in Names(attrs)
    decreases |attrs|
  {
    if |attrs| > 0 {
      LookupNames(attrs[1..], name);
      assert Names(attrs) == [attrs[0].0] + Names(attrs[1..]);
    }
  }

  lemma NamesAppend(a: seq<Attr>, b: seq<Attr>)
    ensures Names(a + b) == Names(a) + Names(b)
  {
  }

  /** Setting an existing attribute keeps the order of the names; setting a
      new one appends its name. */
  lemma {:induction false} PutNames(attrs: seq<Attr>, name: string, value: string)
    ensures Names(Put(attrs, name, value)) == if name in Names(attrs) then Names(attrs) else Names(attrs) + [name]
    decreases |attrs|
  {
    if |attrs| > 0 {
      assert Names(attrs) == [attrs[0].0] + Names(attrs[1..]);
      if attrs[0].0 != name {
        PutNames(attrs[1..], name, value);
        assert Names(Put(attrs, name, value)) == [attrs[0].0] + Names(Put(attrs[1..], name, value));
      } else {
        assert Names(Put(attrs, name, value)) == [name] + Names(attrs[1..]);
      }
    }
  }

  /** Looking up in a concatenation finds the first list's attribute when it
      has one, the second's otherwise. */
  lemma {:induction false} LookupAppend(a: seq<Attr>, b: seq<Attr>, name: string)
    ensures Lookup(a + b, name) == if Lookup(a, name).Some? then Lookup(a, name) else Lookup(b, name)
    decreases |a|
  {
    if |a| > 0 {
      assert (a + b)[0] == a[0] && (a + b)[1..] == a[1..] + b;
      LookupAppend(a[1..], b, name);
    } else {
      assert a + b == b;
    }
  }

  /** Setting an attribute the list does not have appends it: on a fresh
      element, `setAttribute` with distinct names keeps them in call order. */
  lemma {:induction false} PutAbsent(attrs: seq<Attr>, name: string, value: string)
    requires Lookup(attrs, name).None?
    ensures Put(attrs, name, value) == attrs + [(name, value)]
    decreases |attrs|
  {
    if |attrs| > 0 {
      assert attrs[0].0 != name;
      PutAbsent(attrs[1..], name, value);
      assert Put(attrs, name, value) == [attrs[0]] + Put(attrs[1..], name, value);
      assert [attrs[0]] + (attrs[1..] + [(name, value)]) == attrs + [(name, value)];
    }
  }

  /** `Element.setAttribute`: afterwards `name` has `value`, every other
      attribute reads as before, and tag, namespace and children are untouched. */
  function SetAttr(e: Element, name: string, value: string): (r: Element)
    ensures GetAttr(r, name) == Some(value)
    ensures forall n :: n != name ==> GetAttr(r, n) == GetAttr(e, n)
    ensures r.ns == e.ns && r.tag == e.tag && r.children == e.children
  {
    e.(attrs := Put(e.attrs, name, value))
  }

  /** Setting an attribute twice keeps only the second value. */
  lemma SetAttrTwice(e: Element, name: string, v1: string, v2: string)
    ensures SetAttr(SetAttr(e, name, v1), name, v2) == SetAttr(e, name, v2)
  {
    PutTwice(e.attrs, name, v1, v2);
  }

  lemma {:induction false} PutTwice(attrs: seq<Attr>, name: string, v1: string, v2: string)
    ensures Put(Put(attrs, name, v1), name, v2) == Put(attrs, name, v2)
    decreases |attrs|
  {
    if |attrs| > 0 && attrs[0].0 != name {
      PutTwice(attrs[1..], name, v1, v2);
    }
  }

  /** `Node.appendChild`: the child goes last. */
  function AppendChild(parent: Element, child: Element): (r: Element)
    ensures r.children == parent.children + [child]
    ensures r.ns == parent.ns && r.tag == parent.tag && r.attrs == parent.attrs
  {
    parent.(children := parent.children + [child])
  }
}
