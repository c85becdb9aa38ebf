/**
  Method signatures of proxied objects: `wsu_local_stub_create` copies a listed signature into an
  array of methods whose arguments lie one after the other in one flat array, and
  `wsu_local_stub_is_same_signature` compares such a stub with a listed signature.
*/
module Signatures {
  import opened CStrings

  /** blobmsg types, folded from the first character of the listed type name. */
  datatype ArgType = TArray | TTable | TString | TInt32 | TInt8 | TUnspec | TLast

  datatype Arg = Arg(name: string, typeName: Option<string>)
  datatype Method = Method(name: string, args: seq<Arg>)
  type Signature = seq<Method>

  datatype Policy = Policy(name: string, type_: ArgType)

  /** A method of a stub: its policies are the slice [first, first + count) of the flat array. */
  datatype StubMethod = StubMethod(name: string, first: nat, count: nat)

  function FoldType(t: Option<string>): ArgType {
    if t.None? then TLast
    else if t.value == [] then TUnspec
    else match t.value[0]
      case 'a' => TArray
      case 'o' => TTable
      case 's' => TString
      case 'n' => TInt32
      case 'b' => TInt8
      case _ => TUnspec
  }

  function FoldArgs(args: seq<Arg>): (ps: seq<Policy>)
    ensures |ps| == |args|
    ensures forall i :: 0 <= i < |args| ==> ps[i] == Policy(args[i].name, FoldType(args[i].typeName))
  {
    seq(|args|, i requires 0 <= i < |args| => Policy(args[i].name, FoldType(args[i].typeName)))
  }

  /** What a stub remembers of a signature: ordered method names, each with its ordered argument
      names and folded types. */
  datatype Shaped = Shaped(name: string, policies: seq<Policy>)
  type Shape = seq<Shaped>

  function ShapeOf(s: Signature): (r: Shape)
    ensures |r| == |s|
    ensures forall i :: 0 <= i < |s| ==> r[i] == Shaped(s[i].name, FoldArgs(s[i].args))
  {
    seq(|s|, i requires 0 <= i < |s| => Shaped(s[i].name, FoldArgs(s[i].args)))
  }

  // ---- what the folded types tell apart ----

  /** The types an object's arguments can have. */
  predicate Known(k: ArgType) {
    k != TUnspec && k != TLast
  }

  /** blobmsg_type_to_str: how a remote lists a type. */
  function TypeName(k: ArgType): string
    requires Known(k)
  {
    match k
    case TArray => "array"
    case TTable => "object"
    case TString => "string"
    case TInt32 => "number"
    case TInt8 => "boolean"
  }

  /** A listed type arrives as what it was. */
  lemma FoldInvertsName(k: ArgType)
    requires Known(k)
    ensures FoldType(Some(TypeName(k))) == k
  {
    match k
    case TArray => assert TypeName(k)[0] == 'a';
    case TTable => assert TypeName(k)[0] == 'o';
    case TString => assert TypeName(k)[0] == 's';
    case TInt32 => assert TypeName(k)[0] == 'n';
    case TInt8 => assert TypeName(k)[0] == 'b';
  }

  /** Only the first byte of a type name matters; no type name is not the same as any type name. */
  lemma FoldByFirstByte(a: string, b: string)
    ensures a != [] && b != [] && a[0] == b[0] ==> FoldType(Some(a)) == FoldType(Some(b))
    ensures FoldType(None) != FoldType(Some(a)) && !Known(FoldType(None))
    ensures Known(FoldType(Some(a))) <==> exists k :: Known(k) && a != [] && a[0] == TypeName(k)[0]
  {
    if Known(FoldType(Some(a))) {
      var k := FoldType(Some(a));
      FoldInvertsName(k);
      assert Known(k) && a[0] == TypeName(k)[0];
    }
    if k :| Known(k) && a != [] && a[0] == TypeName(k)[0] {
      FoldInvertsName(k);
    }
  }

  predicate SameArg(x: Arg, y: Arg) {
    x.name == y.name && FoldType(x.typeName) == FoldType(y.typeName)
  }

  predicate SameMethod(m: Method, n: Method) {
    && m.name == n.name && |m.args| == |n.args|
    && forall a :: 0 <= a < |m.args| ==> SameArg(m.args[a], n.args[a])
  }

  /** Shapes are equal exactly when method names, argument names and folded types are, in order. */
  lemma ShapesEqualIff(s: Signature, t: Signature)
    ensures ShapeOf(s) == ShapeOf(t) <==>
            |s| == |t| && forall i :: 0 <= i < |s| ==> SameMethod(s[i], t[i])
  {
    if ShapeOf(s) == ShapeOf(t) {
      forall i | 0 <= i < |s| ensures SameMethod(s[i], t[i]) {
        assert ShapeOf(s)[i] == ShapeOf(t)[i];
        var p, q := FoldArgs(s[i].args), FoldArgs(t[i].args);
        forall a | 0 <= a < |s[i].args| ensures SameArg(s[i].args[a], t[i].args[a]) { assert p[a] == q[a]; }
      }
    }
    if |s| == |t| && forall i :: 0 <= i < |s| ==> SameMethod(s[i], t[i]) {
      forall i | 0 <= i < |s| ensures ShapeOf(s)[i] == ShapeOf(t)[i] {
        assert SameMethod(s[i], t[i]);
        assert FoldArgs(s[i].args) == FoldArgs(t[i].args);
      }
    }
  }

  function Retyped(s: Signature, i: nat, a: nat, k: ArgType): Signature
    requires i < |s| && a < |s[i].args| && Known(k)
  {
    s[i := s[i].(args := s[i].args[a := s[i].args[a].(typeName := Some(TypeName(k)))])]
  }

  /** An argument whose type changes from one listed type to another changes the shape, so the stub
      is not taken for the same. */
  lemma TypeChangeShows(s: Signature, i: nat, a: nat, k: ArgType, l: ArgType)
    requires i < |s| && a < |s[i].args| && Known(k) && Known(l)
    ensures ShapeOf(Retyped(s, i, a, k)) == ShapeOf(Retyped(s, i, a, l)) <==> k == l
  {
    var x, y := Retyped(s, i, a, k), Retyped(s, i, a, l);
    ShapesEqualIff(x, y);
    FoldInvertsName(k);
    FoldInvertsName(l);
    if SameMethod(x[i], y[i]) { assert SameArg(x[i].args[a], y[i].args[a]); }
  }

  /** Total number of arguments. */
  function ArgCount(s: Signature): nat {
    if s == [] then 0 else ArgCount(s[..|s| - 1]) + |s[|s| - 1].args|
  }

  lemma {:induction false} ArgCountPrefix(s: Signature, i: nat)
    requires i < |s|
    ensures ArgCount(s[..i + 1]) == ArgCount(s[..i]) + |s[i].args|
    ensures ArgCount(s[..i + 1]) <= ArgCount(s)
    decreases |s| - i
  {
    assert s[..i + 1][..i] == s[..i];
    if i + 1 < |s| {
      ArgCountPrefix(s, i + 1);
    } else {
      assert s[..i + 1] == s;
    }
  }

  /** All argument policies, one method after the other. */
  function Flat(s: Signature): (ps: seq<Policy>)
    ensures |ps| == ArgCount(s)
  {
    if s == [] then [] else Flat(s[..|s| - 1]) + FoldArgs(s[|s| - 1].args)
  }

  lemma {:induction false} FlatPrefix(s: Signature, i: nat)
    requires i <= |s|
    ensures Flat(s[..i]) <= Flat(s)
  {
    if i == |s| {
      assert s[..i] == s;
    } else {
      var t := s[..|s| - 1];
      FlatPrefix(t, i);
      assert t[..i] == s[..i];
    }
  }

  /** Each method's arguments sit at the sum of the counts before it. */
  lemma FlatSlice(s: Signature, i: nat)
    requires i < |s|
    ensures ArgCount(s[..i]) + |s[i].args| <= ArgCount(s)
    ensures Flat(s)[ArgCount(s[..i])..ArgCount(s[..i]) + |s[i].args|] == FoldArgs(s[i].args)
  {
    ArgCountPrefix(s, i);
    FlatPrefix(s, i + 1);
    var t := s[..i + 1];
    assert t[..|t| - 1] == s[..i];
    assert Flat(t) == Flat(s[..i]) + FoldArgs(s[i].args);
    assert Flat(s)[..|Flat(t)|] == Flat(t);
  }

  method FillArgs(args: seq<Arg>, ps: array<Policy>, start: nat)
    requires start + |args| <= ps.Length
    modifies ps
    ensures ps[..start + |args|] == old(ps[..start]) + FoldArgs(args)
    ensures ps[start + |args|..] == old(ps[start + |args|..])
  {
    for a := 0 to |args|
      invariant ps[..start + a] == old(ps[..start]) + FoldArgs(args)[..a]
      invariant ps[start + |args|..] == old(ps[start + |args|..])
    {
      ps[start + a] := Policy(args[a].name, FoldType(args[a].typeName));
      assert ps[..start + a + 1] == ps[..start + a] + [ps[start + a]];
    }
  }

  method CountArgs(s: Signature) returns (numArgs: nat)
    ensures numArgs == ArgCount(s)
  {
    numArgs := 0;
    for k := 0 to |s|
      invariant numArgs == ArgCount(s[..k])
    {
      ArgCountPrefix(s, k);
      numArgs := numArgs + |s[k].args|;
    }
    assert s[..|s|] == s;
  }

  /** The methods in order, each with where its arguments start and how many there are. */
  function Table(s: Signature): (ms: seq<StubMethod>)
    ensures |ms| == |s|
  {
    if s == [] then []
    else
      var t, m := s[..|s| - 1], s[|s| - 1];
      Table(t) + [StubMethod(m.name, ArgCount(t), |m.args|)]
  }

  lemma {:induction false} TableAt(s: Signature, i: nat)
    requires i < |s|
    ensures Table(s)[i] == StubMethod(s[i].name, ArgCount(s[..i]), |s[i].args|)
  {
    if i < |s| - 1 {
      TableAt(s[..|s| - 1], i);
      assert s[..|s| - 1][..i] == s[..i];
    }
  }

  lemma OneMore(s: Signature, k: nat)
    requires k < |s|
    ensures ArgCount(s[..k]) + |s[k].args| == ArgCount(s[..k + 1]) <= ArgCount(s)
    ensures Table(s[..k + 1]) == Table(s[..k]) + [StubMethod(s[k].name, ArgCount(s[..k]), |s[k].args|)]
    ensures Flat(s[..k + 1]) == Flat(s[..k]) + FoldArgs(s[k].args)
  {
    ArgCountPrefix(s, k);
    assert s[..k + 1][..k] == s[..k];
  }

  /** One method: its table entry, and its arguments from b on. */
  method FillMethod(s: Signature, k: nat, ms: array<StubMethod>, ps: array<Policy>, b: nat)
    requires k < |s| == ms.Length && ps.Length == ArgCount(s) && b == ArgCount(s[..k])
    requires ms[..k] == Table(s[..k]) && b <= ps.Length && ps[..b] == Flat(s[..k])
    modifies ms, ps
    ensures b + |s[k].args| == ArgCount(s[..k + 1]) <= ps.Length
    ensures ms[..k + 1] == Table(s[..k + 1]) && ps[..b + |s[k].args|] == Flat(s[..k + 1])
  {
    OneMore(s, k);
    FillArgs(s[k].args, ps, b);
    ms[k] := StubMethod(s[k].name, b, |s[k].args|);
    assert ms[..k + 1] == ms[..k] + [ms[k]];
  }

  method FillStub(s: Signature) returns (ms: array<StubMethod>, ps: array<Policy>)
    ensures fresh(ms) && fresh(ps)
    ensures ms[..] == Table(s) && ps[..] == Flat(s)
  {
    var numArgs := CountArgs(s);
    ms := new StubMethod[|s|](_ => StubMethod("", 0, 0));
    ps := new Policy[numArgs](_ => Policy("", TUnspec));
    var b := 0;
    for k := 0 to |s|
      invariant b == ArgCount(s[..k]) <= numArgs
      invariant ms[..k] == Table(s[..k])
      invariant ps[..b] == Flat(s[..k])
    {
      FillMethod(s, k, ms, ps, b);
      b := b + |s[k].args|;
    }
    assert s[..|s|] == s && ps[..b] == ps[..] && ms[..|s|] == ms[..];
  }

  /** Slicing the flat array by the table gives back the shape. */
  lemma TableCutsFlat(s: Signature, i: nat)
    requires i < |s|
    ensures var m := Table(s)[i];
            && m.first + m.count <= |Flat(s)|
            && Shaped(m.name, Flat(s)[m.first..m.first + m.count]) == ShapeOf(s)[i]
  {
    TableAt(s, i);
    FlatSlice(s, i);
  }

  predicate Fits(ms: seq<StubMethod>, ps: seq<Policy>) {
    forall i :: 0 <= i < |ms| ==> ms[i].first + ms[i].count <= |ps|
  }

  function Cut(ms: seq<StubMethod>, ps: seq<Policy>): (r: Shape)
    requires Fits(ms, ps)
    ensures |r| == |ms|
    ensures forall i :: 0 <= i < |ms| ==> r[i] == Shaped(ms[i].name, ps[ms[i].first..ms[i].first + ms[i].count])
  {
    seq(|ms|, i requires 0 <= i < |ms| => Shaped(ms[i].name, ps[ms[i].first..ms[i].first + ms[i].count]))
  }

  lemma CutIsShape(s: Signature)
    ensures Fits(Table(s), Flat(s)) && Cut(Table(s), Flat(s)) == ShapeOf(s)
  {
    forall i | 0 <= i < |s|
      ensures Table(s)[i].first + Table(s)[i].count <= |Flat(s)|
      ensures var m := Table(s)[i];
              Shaped(m.name, Flat(s)[m.first..m.first + m.count]) == ShapeOf(s)[i]
    {
      TableCutsFlat(s, i);
    }
  }

  class Stub {
    const methods: array<StubMethod>
    const methodArgs: array<Policy>

    ghost predicate Valid()
      reads this, methods, methodArgs
    {
      Fits(methods[..], methodArgs[..])
    }

    /** The shape held by the two arrays. */
    ghost function View(): Shape
      requires Valid()
      reads this, methods, methodArgs
    {
      Cut(methods[..], methodArgs[..])
    }

    /** The arrays are filled to exactly the counted size, each method's slice starting at the
        sum of the argument counts before it, and together hold the signature's shape. */
    constructor (s: Signature)
      ensures Valid() && fresh(methods) && fresh(methodArgs)
      ensures methods[..] == Table(s) && methodArgs.Length == ArgCount(s)
      ensures View() == ShapeOf(s)
    {
      var ms, ps := FillStub(s);
      methods, methodArgs := ms, ps;
      new;
      assert |methodArgs[..]| == methodArgs.Length;
      CutIsShape(s);
    }

    /** A stub compares equal to a listed signature exactly when both have the same shape. */
    method IsSameSignature(s: Signature) returns (same: bool)
      requires Valid()
      ensures same <==> View() == ShapeOf(s)
    {
      if methods.Length != |s| {
        return false;
      }
      for k := 0 to |s|
        invariant forall i :: 0 <= i < k ==> View()[i] == ShapeOf(s)[i]
      {
        var m := methods[k];
        if m.count != |s[k].args| {
          assert |View()[k].policies| != |ShapeOf(s)[k].policies|;
          return false;
        }
        if m.name != s[k].name {
          assert View()[k].name != ShapeOf(s)[k].name;
          return false;
        }
        for a := 0 to m.count
          invariant forall i :: 0 <= i < a ==> View()[k].policies[i] == ShapeOf(s)[k].policies[i]
        {
          var b := methodArgs[m.first + a];
          assert View()[k].policies[a] == b;
          if b.type_ != FoldType(s[k].args[a].typeName) || b.name != s[k].args[a].name {
            assert View()[k].policies[a] != ShapeOf(s)[k].policies[a];
            return false;
          }
        }
      }
      return true;
    }
  }
}
