// The `syn` items lockjaw's attribute handlers are applied to: traits,
// structs and impl blocks, with the parts of their methods and fields the
// handlers read. What `syn::parse2` makes of the annotated tokens is the
// `Item` input; a parse into the wrong kind of item is `OtherItem`.
module SynItems {
  import opened Outcomes
  import opened Syn
  import Parsing

  /// `syn::ReturnType`: no `->`, or `-> ty`. `tokens` is the text of each
  /// top-level token of the type, as `to_token_stream()` yields them.
  datatype ReturnType = DefaultReturn | ReturnsType(ty: SynType, tokens: seq<string>)

  /// `syn::FnArg`: a `self` receiver (`&self` when `isRef`), or `pat: ty`
  /// whose pattern is an identifier (`Some`) or something else (`None`).
  datatype FnArg =
    | Receiver(isRef: bool)
    | Typed(attrs: seq<Parsing.Attribute>, pat: Option<string>, ty: SynType)

  datatype Signature = Signature(ident: string, inputs: seq<FnArg>, output: ReturnType)

  /// A method with its attributes and the number of statements in its body.
  datatype Method = Method(attrs: seq<Parsing.Attribute>, sig: Signature, stmts: nat)

  /// A method declared in a trait.
  datatype TraitMethod = TraitMethod(attrs: seq<Parsing.Attribute>, sig: Signature)

  /// `syn::TraitItem`: a method declaration, or any other item.
  datatype TraitItem = TraitFn(f: TraitMethod) | OtherTraitItem

  /// `syn::ImplItem`: a method, or any other item.
  datatype ImplItem = ImplFn(m: Method) | OtherImplItem

  /// A struct field: named (`Some`) or a tuple field (`None`).
  datatype Field = Field(attrs: seq<Parsing.Attribute>, ident: Option<string>, ty: SynType)

  datatype ItemTrait = ItemTrait(ident: string, items: seq<TraitItem>)

  datatype ItemStruct = ItemStruct(ident: string, fields: seq<Field>)

  /// `impl SelfTy { items }`.
  datatype ItemImpl = ItemImpl(selfTy: SynType, items: seq<ImplItem>)

  datatype Item =
    | StructItem(s: ItemStruct)
    | TraitItemDecl(t: ItemTrait)
    | ImplItemDecl(i: ItemImpl)
    | OtherItem

  /// The methods among the trait items `items[i..]`, in order.
  function TraitMethods(items: seq<TraitItem>, i: nat): (r: seq<TraitMethod>)
    requires i <= |items|
    ensures |r| <= |items| - i
    decreases |items| - i
  {
    if i == |items| then []
    else if items[i].TraitFn? then [items[i].f] + TraitMethods(items, i + 1)
    else TraitMethods(items, i + 1)
  }

  /// Every method among the trait items is one of `TraitMethods`.
  lemma {:induction false} TraitMethodsHas(items: seq<TraitItem>, i: nat, j: nat)
    requires i <= j < |items| && items[j].TraitFn?
    ensures exists k :: 0 <= k < |TraitMethods(items, i)| && TraitMethods(items, i)[k] == items[j].f
    decreases j - i
  {
    if i < j {
      TraitMethodsHas(items, i + 1, j);
      var k :| 0 <= k < |TraitMethods(items, i + 1)| && TraitMethods(items, i + 1)[k] == items[j].f;
      if items[i].TraitFn? {
        assert TraitMethods(items, i) == [items[i].f] + TraitMethods(items, i + 1);
        assert TraitMethods(items, i)[k + 1] == items[j].f;
      } else {
        assert TraitMethods(items, i) == TraitMethods(items, i + 1);
      }
    } else {
      assert TraitMethods(items, i)[0] == items[j].f;
    }
  }

  /// The methods among the impl items `items[i..]`, in order.
  function ImplMethods(items: seq<ImplItem>, i: nat): (r: seq<Method>)
    requires i <= |items|
    ensures |r| <= |items| - i
    decreases |items| - i
  {
    if i == |items| then []
    else if items[i].ImplFn? then [items[i].m] + ImplMethods(items, i + 1)
    else ImplMethods(items, i + 1)
  }

  /// A loop over the trait items `items[i..]` that reads each method with
  /// `f`, skipping other items: the results in order, or the first error.
  function MapTraitMethods<B>(items: seq<TraitItem>, i: nat, f: TraitMethod -> Result<B>): (r: Result<seq<B>>)
    requires i <= |items|
    decreases |items| - i
  {
    if i == |items| then Ok([])
    else if !items[i].TraitFn? then MapTraitMethods(items, i + 1, f)
    else
      var b :- f(items[i].f);
      var rest :- MapTraitMethods(items, i + 1, f);
      Ok([b] + rest)
  }

  /// The loop succeeds exactly when `f` accepts every method, and then holds
  /// `f`'s result for each method in order; otherwise it fails with the
  /// error of the first method `f` rejects.
  lemma MapTraitMethodsMeaning<B>(items: seq<TraitItem>, i: nat, f: TraitMethod -> Result<B>)
    requires i <= |items|
    ensures var fs := TraitMethods(items, i);
            var r := MapTraitMethods(items, i, f);
            && (r.Ok? <==> forall j :: 0 <= j < |fs| ==> f(fs[j]).Ok?)
            && (r.Ok? ==> |r.value| == |fs| && forall j :: 0 <= j < |fs| ==> f(fs[j]) == Ok(r.value[j]))
            && (r.Err? ==> exists j :: 0 <= j < |fs| && f(fs[j]) == Err(r.msg)
                                      && forall k :: 0 <= k < j ==> f(fs[k]).Ok?)
  {
    MapTraitMethodsIsMapAll(items, i, f);
    MapAllOk(TraitMethods(items, i), f);
    MapAllValues(TraitMethods(items, i), f);
    MapAllFirstError(TraitMethods(items, i), f);
  }

  lemma {:induction false} MapTraitMethodsIsMapAll<B>(items: seq<TraitItem>, i: nat, f: TraitMethod -> Result<B>)
    requires i <= |items|
    ensures MapTraitMethods(items, i, f) == MapAll(TraitMethods(items, i), f)
    decreases |items| - i
  {
    if i < |items| {
      MapTraitMethodsIsMapAll(items, i + 1, f);
      if items[i].TraitFn? {
        var fs := TraitMethods(items, i);
        assert fs[0] == items[i].f && fs[1..] == TraitMethods(items, i + 1);
      }
    }
  }

  /// The same loop over the impl items `items[i..]`.
  function MapImplMethods<B>(items: seq<ImplItem>, i: nat, f: Method -> Result<B>): (r: Result<seq<B>>)
    requires i <= |items|
    decreases |items| - i
  {
    if i == |items| then Ok([])
    else if !items[i].ImplFn? then MapImplMethods(items, i + 1, f)
    else
      var b :- f(items[i].m);
      var rest :- MapImplMethods(items, i + 1, f);
      Ok([b] + rest)
  }

  lemma MapImplMethodsMeaning<B>(items: seq<ImplItem>, i: nat, f: Method -> Result<B>)
    requires i <= |items|
    ensures var fs := ImplMethods(items, i);
            var r := MapImplMethods(items, i, f);
            && (r.Ok? <==> forall j :: 0 <= j < |fs| ==> f(fs[j]).Ok?)
            && (r.Ok? ==> |r.value| == |fs| && forall j :: 0 <= j < |fs| ==> f(fs[j]) == Ok(r.value[j]))
            && (r.Err? ==> exists j :: 0 <= j < |fs| && f(fs[j]) == Err(r.msg)
                                      && forall k :: 0 <= k < j ==> f(fs[k]).Ok?)
  {
    MapImplMethodsIsMapAll(items, i, f);
    MapAllOk(ImplMethods(items, i), f);
    MapAllValues(ImplMethods(items, i), f);
    MapAllFirstError(ImplMethods(items, i), f);
  }

  lemma {:induction false} MapImplMethodsIsMapAll<B>(items: seq<ImplItem>, i: nat, f: Method -> Result<B>)
    requires i <= |items|
    ensures MapImplMethods(items, i, f) == MapAll(ImplMethods(items, i), f)
    decreases |items| - i
  {
    if i < |items| {
      MapImplMethodsIsMapAll(items, i + 1, f);
      if items[i].ImplFn? {
        var fs := ImplMethods(items, i);
        assert fs[0] == items[i].m && fs[1..] == ImplMethods(items, i + 1);
      }
    }
  }

  /// `f` applied to each element in order, stopping at the first error.
  function MapAll<A, B>(xs: seq<A>, f: A -> Result<B>): (r: Result<seq<B>>)
  {
    if |xs| == 0 then Ok([])
    else
      var b :- f(xs[0]);
      var rest :- MapAll(xs[1..], f);
      Ok([b] + rest)
  }

  lemma {:induction false} MapAllOk<A, B>(xs: seq<A>, f: A -> Result<B>)
    ensures MapAll(xs, f).Ok? <==> forall j :: 0 <= j < |xs| ==> f(xs[j]).Ok?
  {
    if |xs| > 0 {
      MapAllOk(xs[1..], f);
      assert forall j :: 0 < j < |xs| ==> xs[j] == xs[1..][j - 1];
    }
  }

  lemma {:induction false} MapAllValues<A, B>(xs: seq<A>, f: A -> Result<B>)
    ensures var r := MapAll(xs, f);
            r.Ok? ==> |r.value| == |xs| && forall j :: 0 <= j < |xs| ==> f(xs[j]) == Ok(r.value[j])
  {
    if |xs| > 0 && MapAll(xs, f).Ok? {
      MapAllValues(xs[1..], f);
      var r := MapAll(xs, f).value;
      var rest := MapAll(xs[1..], f).value;
      assert r == [f(xs[0]).value] + rest;
      forall j | 0 < j < |xs|
        ensures f(xs[j]) == Ok(r[j])
      {
        assert xs[j] == xs[1..][j - 1] && r[j] == rest[j - 1];
      }
    }
  }

  lemma {:induction false} MapAllFirstError<A, B>(xs: seq<A>, f: A -> Result<B>)
    ensures var r := MapAll(xs, f);
            r.Err? ==> exists j :: 0 <= j < |xs| && f(xs[j]) == Err(r.msg)
                                 && forall k :: 0 <= k < j ==> f(xs[k]).Ok?
  {
    var r := MapAll(xs, f);
    if |xs| > 0 && r.Err? {
      if f(xs[0]).Err? {
        assert f(xs[0]) == Err(r.msg);
      } else {
        MapAllFirstError(xs[1..], f);
        var tail := xs[1..];
        var j :| 0 <= j < |tail| && f(tail[j]) == Err(r.msg) && forall k :: 0 <= k < j ==> f(tail[k]).Ok?;
        assert xs[j + 1] == tail[j];
        forall k | 0 <= k < j + 1
          ensures f(xs[k]).Ok?
        {
          if k > 0 {
            assert xs[k] == tail[k - 1];
          }
        }
      }
    }
  }
}
