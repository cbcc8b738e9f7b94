/** Which values share their canonical bytes, for all values. */
module JsonBytes {
  import opened Outcomes
  import opened Json
  import opened JsonRoundTrip
  import opened JsonCanonical
  import opened JsonParsed

  /** The value with the split pairs in its strings joined; keys that become equal stay two. */
  function Respelled(v: Value): Value {
    match v
    case Str(s) => Str(Join(s))
    case Arr(items) => Arr(RespelledItems(items))
    case Obj(fields) => Obj(RespelledFields(fields))
    case _ => v
  }

  function RespelledItems(items: seq<Value>): (r: seq<Value>)
    ensures |r| == |items|
    ensures forall i :: 0 <= i < |items| ==> r[i] == Respelled(items[i])
  {
    if |items| == 0 then [] else [Respelled(items[0])] + RespelledItems(items[1..])
  }

  function RespelledFields(fields: seq<Field>): (r: seq<Field>)
    ensures |r| == |fields|
    ensures forall i :: 0 <= i < |fields| ==> r[i] == Field(Join(fields[i].key), Respelled(fields[i].value))
  {
    if |fields| == 0 then []
    else [Field(Join(fields[0].key), Respelled(fields[0].value))] + RespelledFields(fields[1..])
  }

  // ---- respelling does not show --------------------------------------------------------

  lemma {:induction false} SameItems(a: seq<Value>, b: seq<Value>)
    requires |a| == |b| > 0 && forall i :: 0 <= i < |a| ==> Render(a[i]) == Render(b[i])
    ensures RenderItems(a) == RenderItems(b)
  {
    if |a| > 1 {
      SameItems(a[1..], b[1..]);
    }
  }

  lemma {:induction false} SameFields(a: seq<Field>, b: seq<Field>)
    requires |a| == |b| > 0 && forall i :: 0 <= i < |a| ==> RenderField(a[i]) == RenderField(b[i])
    ensures RenderFields(a) == RenderFields(b)
  {
    if |a| > 1 {
      SameFields(a[1..], b[1..]);
    }
  }

  /** A value is printed like its respelling. */
  lemma {:induction false} RenderRespelled(v: Value)
    ensures Render(Respelled(v)) == Render(v)
    decreases v
  {
    match v
    case Str(s) => EscapeJoin(s);
    case Arr(items) =>
      forall i | 0 <= i < |items|
        ensures Render(RespelledItems(items)[i]) == Render(items[i])
      {
        RenderRespelled(items[i]);
      }
      if items != [] {
        SameItems(RespelledItems(items), items);
      }
    case Obj(fields) =>
      forall i | 0 <= i < |fields|
        ensures RenderField(RespelledFields(fields)[i]) == RenderField(fields[i])
      {
        EscapeJoin(fields[i].key);
        RenderRespelled(fields[i].value);
      }
      if fields != [] {
        SameFields(RespelledFields(fields), fields);
      }
    case _ =>
  }

  // ---- everything else does ------------------------------------------------------------

  lemma JoinedHasNoSplit(s: PyString)
    ensures NoSplit(Join(s))
  {
    CharsRoundTrip(s, "");
    CharsNoSplit(Escape(s) + ("\"" + ""));
  }

  lemma {:induction false} RespelledHasNoSplit(v: Value)
    ensures NoSplitPairs(Respelled(v))
    decreases v
  {
    match v
    case Str(s) => JoinedHasNoSplit(s);
    case Arr(items) =>
      forall i | 0 <= i < |items|
        ensures NoSplitPairs(RespelledItems(items)[i])
      {
        RespelledHasNoSplit(items[i]);
      }
    case Obj(fields) =>
      forall i | 0 <= i < |fields|
        ensures NoSplit(RespelledFields(fields)[i].key) && NoSplitPairs(RespelledFields(fields)[i].value)
      {
        JoinedHasNoSplit(fields[i].key);
        RespelledHasNoSplit(fields[i].value);
      }
    case _ =>
  }

  lemma SameFront(a: string, b: string, rest: string)
    requires a + rest == b + rest
    ensures a == b
  {
    assert |a| == |b|;
    assert a == (a + rest)[..|a|] == (b + rest)[..|b|] == b;
  }

  /** Two printed values with something behind them: what is behind is the same, and so are the printed texts. */
  lemma ValueInFront(u: Value, x: string, w: Value, y: string)
    requires EndsNumber(x) && EndsNumber(y) && Render(u) + x == Render(w) + y
    ensures x == y && Render(u) == Render(w) && Joined(u) == Joined(w)
  {
    ValueRoundTrip(u, x);
    ValueRoundTrip(w, y);
    SameFront(Render(u), Render(w), x);
  }

  lemma KeyInFront(k: PyString, x: string, l: PyString, y: string)
    requires NoSplit(k) && NoSplit(l) && Quote(k) + x == Quote(l) + y
    ensures x == y && k == l
  {
    StrRoundTrip(k, x);
    StrRoundTrip(l, y);
    JoinIdentity(k);
    JoinIdentity(l);
  }

  lemma SameInside(left: string, a: string, b: string, right: string)
    requires left + a + right == left + b + right
    ensures a == b
  {
    SameFront(left + a, left + b, right);
    assert a == (left + a)[|left|..] == (left + b)[|left|..] == b;
  }

  lemma Associate(a: string, b: string, c: string, d: string)
    ensures a + b + c + d == a + (b + (c + d))
  {
  }

  /** Values without split pairs that print alike are identical. */
  lemma {:induction false} RenderInjective(u: Value, w: Value)
    requires NoSplitPairs(u) && NoSplitPairs(w) && Render(u) == Render(w)
    ensures u == w
    decreases u, 1
  {
    assert Render(u) + "" == Render(w) + "";
    ValueInFront(u, "", w, "");
    match u
    case Str(s) =>
      JoinIdentity(s);
      JoinIdentity(w.s);
    case Arr(items) =>
      assert |JoinedItems(items)| == |JoinedItems(w.items)|;
      if items != [] {
        SameInside("[", RenderItems(items), RenderItems(w.items), "]");
        ItemsInjective(items, w.items);
      }
    case Obj(fields) => ObjInjective(fields, w.fields);
    case _ =>
  }

  /** What is printed behind the first of several items. */
  function BehindItem(us: seq<Value>): string
    requires |us| > 0
  {
    if |us| == 1 then "" else "," + RenderItems(us[1..])
  }

  lemma FirstItems(us: seq<Value>, ws: seq<Value>)
    requires |us| > 0 && |ws| > 0 && RenderItems(us) == RenderItems(ws)
    ensures Render(us[0]) == Render(ws[0]) && BehindItem(us) == BehindItem(ws)
  {
    ItemsText(us);
    ItemsText(ws);
    ValueInFront(us[0], BehindItem(us), ws[0], BehindItem(ws));
  }

  lemma ItemsText(us: seq<Value>)
    requires |us| > 0
    ensures RenderItems(us) == Render(us[0]) + BehindItem(us)
  {
  }

  lemma {:induction false} ItemsInjective(us: seq<Value>, ws: seq<Value>)
    requires |us| == |ws| > 0 && RenderItems(us) == RenderItems(ws)
    requires forall i :: 0 <= i < |us| ==> NoSplitPairs(us[i]) && NoSplitPairs(ws[i])
    ensures us == ws
    decreases us, 0
  {
    FirstItems(us, ws);
    RenderInjective(us[0], ws[0]);
    if |us| > 1 {
      SameInside(",", RenderItems(us[1..]), RenderItems(ws[1..]), "");
      ItemsInjective(us[1..], ws[1..]);
    }
    assert us == [us[0]] + us[1..] && ws == [ws[0]] + ws[1..];
  }

  lemma FieldsStart(fs: seq<Field>)
    requires |fs| > 0
    ensures |RenderFields(fs)| > 0 && RenderFields(fs)[0] == '\"'
  {
    assert RenderField(fs[0])[0] == '\"';
  }

  lemma {:induction false} ObjInjective(fs: seq<Field>, gs: seq<Field>)
    requires Render(Obj(fs)) == Render(Obj(gs))
    requires NoSplitPairs(Obj(fs)) && NoSplitPairs(Obj(gs))
    ensures fs == gs
    decreases fs, 1
  {
    if fs != [] {
      FieldsStart(fs);
      assert Render(Obj(fs))[1] == '\"';
    }
    if gs != [] {
      FieldsStart(gs);
      assert Render(Obj(gs))[1] == '\"';
    }
    if fs != [] && gs != [] {
      SameInside("{", RenderFields(fs), RenderFields(gs), "}");
      FieldsInjective(fs, gs);
    }
  }

  /** What is printed behind the first of several fields. */
  function Behind(fs: seq<Field>): string
    requires |fs| > 0
  {
    if |fs| == 1 then "" else "," + RenderFields(fs[1..])
  }

  lemma FieldsText(fs: seq<Field>)
    requires |fs| > 0
    ensures RenderFields(fs) == Quote(fs[0].key) + (":" + (Render(fs[0].value) + Behind(fs)))
  {
    assert RenderFields(fs) == RenderField(fs[0]) + Behind(fs);
    Associate(Quote(fs[0].key), ":", Render(fs[0].value), Behind(fs));
  }

  lemma FirstFields(fs: seq<Field>, gs: seq<Field>)
    requires |fs| > 0 && |gs| > 0 && RenderFields(fs) == RenderFields(gs)
    requires NoSplit(fs[0].key) && NoSplit(gs[0].key)
    ensures fs[0].key == gs[0].key && Render(fs[0].value) == Render(gs[0].value) && Behind(fs) == Behind(gs)
  {
    FieldsText(fs);
    FieldsText(gs);
    var x, y := Render(fs[0].value) + Behind(fs), Render(gs[0].value) + Behind(gs);
    KeyInFront(fs[0].key, ":" + x, gs[0].key, ":" + y);
    SameInside(":", x, y, "");
    ValueInFront(fs[0].value, Behind(fs), gs[0].value, Behind(gs));
  }

  lemma {:induction false} FieldsInjective(fs: seq<Field>, gs: seq<Field>)
    requires |fs| > 0 && |gs| > 0 && RenderFields(fs) == RenderFields(gs)
    requires forall i :: 0 <= i < |fs| ==> NoSplit(fs[i].key) && NoSplitPairs(fs[i].value)
    requires forall i :: 0 <= i < |gs| ==> NoSplit(gs[i].key) && NoSplitPairs(gs[i].value)
    ensures fs == gs
    decreases fs, 0
  {
    FirstFields(fs, gs);
    RenderInjective(fs[0].value, gs[0].value);
    assert fs[0] == gs[0];
    if |fs| > 1 && |gs| > 1 {
      SameInside(",", RenderFields(fs[1..]), RenderFields(gs[1..]), "");
      FieldsInjective(fs[1..], gs[1..]);
    }
    assert fs == [fs[0]] + fs[1..] && gs == [gs[0]] + gs[1..];
  }

  // ---- main result ---------------------------------------------------------------------

  /**
   Any two values share their canonical bytes exactly when their sorted forms,
   with every split pair joined, are identical field by field.
   */
  lemma ValuesShareBytesIff(a: Value, b: Value)
    ensures Canonical(a) == Canonical(b) <==> Respelled(SortedForm(a)) == Respelled(SortedForm(b))
  {
    var u, w := Respelled(SortedForm(a)), Respelled(SortedForm(b));
    RenderRespelled(SortedForm(a));
    RenderRespelled(SortedForm(b));
    RespelledHasNoSplit(SortedForm(a));
    RespelledHasNoSplit(SortedForm(b));
    if Render(u) == Render(w) {
      RenderInjective(u, w);
    }
  }
}
