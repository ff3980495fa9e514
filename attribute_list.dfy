/** The SAX attribute list handed to loaderStartElement, as (qualified name,
    value) pairs in document order, and the copy of that list into a
    presentation-attribute map. */
module AttributeList {
  import opened SvgTypes

  type Attrs = seq<(string, string)>

  /** Attributes.getValue(qName): the value of the first attribute with that
      qualified name, or null. */
  function ValueOf(attrs: Attrs, qName: string): (r: Option<string>)
    ensures r.Some? ==> (qName, r.value) in attrs
    decreases |attrs|
  {
    if attrs == [] then None
    else if attrs[0].0 == qName then Some(attrs[0].1)
    else ValueOf(attrs[1..], qName)
  }

  /** getValue finds nothing exactly when no attribute has the name, and
      otherwise answers with the value of the first one that has it. */
  lemma {:induction false} ValueOfFirst(attrs: Attrs, qName: string)
    ensures ValueOf(attrs, qName).None? <==> forall k :: 0 <= k < |attrs| ==> attrs[k].0 != qName
    ensures ValueOf(attrs, qName).Some? ==> exists k :: (0 <= k < |attrs| && attrs[k] == (qName, ValueOf(attrs, qName).value) &&
      forall j :: 0 <= j < k ==> attrs[j].0 != qName)
    decreases |attrs|
  {
    if attrs != [] && attrs[0].0 != qName {
      ValueOfFirst(attrs[1..], qName);
      var r := ValueOf(attrs, qName);
      if r.Some? {
        var k :| 0 <= k < |attrs[1..]| && attrs[1..][k] == (qName, r.value) &&
          forall j :: 0 <= j < k ==> attrs[1..][j].0 != qName;
        assert attrs[k + 1] == (qName, r.value);
      } else {
        forall k | 0 <= k < |attrs|
          ensures attrs[k].0 != qName
        {
          if k > 0 {
            assert attrs[k] == attrs[1..][k - 1];
          }
        }
      }
    } else if attrs != [] {
      assert attrs[0] == (qName, ValueOf(attrs, qName).value);
    }
  }

  /** The qualified names present in the list. */
  function Names(attrs: Attrs): set<string>
  {
    set a | a in attrs :: a.0
  }

  /** The value of the last attribute with the given name. */
  function LastValue(attrs: Attrs, name: string): string
    requires name in Names(attrs)
    decreases |attrs|
  {
    var n := |attrs| - 1;
    if attrs[n].0 == name then attrs[n].1
    else
      assert attrs == attrs[..n] + [attrs[n]];
      assert Names(attrs) == Names(attrs[..n]) + {attrs[n].0};
      LastValue(attrs[..n], name)
  }

  /** The copy loop of loaderStartElement: presAttribs.put(name, value) for
      each attribute in order. */
  function PutAll(m: map<string, string>, attrs: Attrs): (r: map<string, string>)
    ensures m.Keys <= r.Keys
    decreases |attrs|
  {
    if attrs == [] then m
    else
      var n := |attrs| - 1;
      PutAll(m, attrs[..n])[attrs[n].0 := attrs[n].1]
  }

  /** After the copy every attribute name is present with the value of its last
      occurrence, and every other entry is as before. */
  lemma {:induction false} PutAllContents(m: map<string, string>, attrs: Attrs)
    ensures PutAll(m, attrs).Keys == m.Keys + Names(attrs)
    ensures forall k :: k in PutAll(m, attrs) ==>
      PutAll(m, attrs)[k] == if k in Names(attrs) then LastValue(attrs, k) else m[k]
    decreases |attrs|
  {
    if attrs != [] {
      var n := |attrs| - 1;
      PutAllContents(m, attrs[..n]);
      assert attrs == attrs[..n] + [attrs[n]];
      assert Names(attrs) == Names(attrs[..n]) + {attrs[n].0};
    }
  }
}
