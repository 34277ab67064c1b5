/** Tensor views: contiguous strides, the inferred size, and that a view only renames elements. */
module View {
  import opened Arithmetic
  import opened Words

  type Shape = seq<nat>

  predicate Sizes(dims: seq<int>) {
    forall i :: 0 <= i < |dims| ==> dims[i] >= 0
  }

  function Product(dims: seq<int>): (p: int)
    ensures Sizes(dims) ==> p >= 0
  {
    if dims == [] then 1
    else
      var rest := Product(dims[1..]);
      assert Sizes(dims) ==> Sizes(dims[1..]) && dims[0] >= 0;
      dims[0] * rest
  }

  // ----- strides and offsets -----

  /** The strides of a contiguous tensor: the number of elements behind each dimension. */
  function Strides(dims: seq<int>): (s: seq<int>)
    ensures |s| == |dims| && (Sizes(dims) ==> Sizes(s))
  {
    if dims == [] then []
    else
      assert Sizes(dims) ==> Sizes(dims[1..]);
      [Product(dims[1..])] + Strides(dims[1..])
  }

  function Dot(index: seq<nat>, strides: seq<nat>): nat
    requires |index| == |strides|
  {
    if index == [] then 0 else index[0] * strides[0] + Dot(index[1..], strides[1..])
  }

  predicate InShape(index: seq<nat>, dims: Shape) {
    |index| == |dims| && forall i :: 0 <= i < |dims| ==> index[i] < dims[i]
  }

  method ContiguousStrides(size: seq<int>) returns (strides: seq<int>)
    ensures strides == Strides(size)
  {
    var out := new int[|size|];
    var nextStride := 1;
    var dim := |size| - 1;
    assert size[|size|..] == [];
    while dim >= 0
      invariant -1 <= dim < |size| && nextStride == Product(size[dim + 1..])
      invariant out[dim + 1..] == Strides(size[dim + 1..])
    {
      out[dim] := nextStride;
      TailOfTail(size, dim);
      assert out[dim..] == [out[dim]] + out[dim + 1..];
      nextStride := nextStride * size[dim];
      dim := dim - 1;
    }
    assert size[0..] == size && out[0..] == out[..];
    strides := out[..];
  }

  lemma NothingBehind()
    ensures Product([]) == 1 && Strides([]) == []
  {
  }

  lemma TailOfTail<T>(xs: seq<T>, i: nat)
    requires i < |xs|
    ensures xs[i..][0] == xs[i] && xs[i..][1..] == xs[i + 1..]
  {
  }

  /** The multi-index at an offset. */
  function Unravel(n: nat, dims: Shape): (index: seq<nat>)
    requires n < Product(dims)
    ensures |index| == |dims|
  {
    if dims == [] then []
    else
      RestPositive(n, dims);
      var rest := Product(dims[1..]);
      ModBelow(n, rest);
      [n / rest] + Unravel(n % rest, dims[1..])
  }

  lemma RestPositive(n: nat, dims: Shape)
    requires dims != [] && n < Product(dims)
    ensures Product(dims[1..]) > 0
  {
    hide Product;
    if Product(dims[1..]) == 0 { EmptyTail(dims); }
  }

  lemma EmptyTail(dims: Shape)
    requires dims != [] && Product(dims[1..]) == 0
    ensures Product(dims) == 0
  {
  }

  lemma InShapeTail(index: seq<nat>, dims: Shape)
    requires InShape(index, dims) && dims != []
    ensures index[0] < dims[0] && InShape(index[1..], dims[1..])
  {
  }

  /** Offsets of indices in range lie below the element count. */
  lemma {:induction false} OffsetInRange(index: seq<nat>, dims: Shape)
    requires InShape(index, dims)
    ensures Dot(index, Strides(dims)) < Product(dims)
    decreases |dims|
  {
    if dims != [] {
      InShapeTail(index, dims);
      OffsetInRange(index[1..], dims[1..]);
      var p := Product(dims[1..]);
      assert Strides(dims)[1..] == Strides(dims[1..]);
      MulMonotone(index[0] + 1, dims[0], p);
      assert (index[0] + 1) * p == index[0] * p + p;
    }
  }

  /** From a multi-index to its offset and back. */
  lemma {:induction false} UnravelOfOffset(index: seq<nat>, dims: Shape)
    requires InShape(index, dims)
    ensures Dot(index, Strides(dims)) < Product(dims)
    ensures Unravel(Dot(index, Strides(dims)), dims) == index
    decreases |dims|
  {
    OffsetInRange(index, dims);
    if dims != [] {
      InShapeTail(index, dims);
      var p := Product(dims[1..]);
      OffsetInRange(index[1..], dims[1..]);
      UnravelOfOffset(index[1..], dims[1..]);
      assert Strides(dims)[1..] == Strides(dims[1..]);
      DivMod(index[0], Dot(index[1..], Strides(dims[1..])), p);
    } else {
      assert index == [];
    }
  }

  lemma QuotientBelow(n: nat, d: nat, p: nat)
    requires p > 0 && n < d * p
    ensures n / p < d && n == (n / p) * p + n % p
  {
    assert n == p * (n / p) + n % p;
    if n / p >= d {
      MulMonotone(d, n / p, p);
    }
  }

  /** From an offset to its multi-index and back. */
  lemma {:induction false} OffsetOfUnravel(n: nat, dims: Shape)
    requires n < Product(dims)
    ensures InShape(Unravel(n, dims), dims)
    ensures Dot(Unravel(n, dims), Strides(dims)) == n
    decreases |dims|
  {
    if dims != [] {
      var p := Product(dims[1..]);
      RestPositive(n, dims);
      OffsetOfUnravel(n % p, dims[1..]);
      var index := Unravel(n, dims);
      assert index[1..] == Unravel(n % p, dims[1..]) && Strides(dims)[1..] == Strides(dims[1..]);
      QuotientBelow(n, dims[0], p);
      assert InShape(index, dims) by {
        forall i | 0 <= i < |dims| ensures index[i] < dims[i] {
          if i > 0 { assert index[i] == index[1..][i - 1] && dims[i] == dims[1..][i - 1]; }
        }
      }
    }
  }

  // ----- the inferred size -----

  /** A size that fills the requested one in and keeps the element count. */
  predicate Completes(out: Shape, size: seq<int>, numel: nat) {
    && |out| == |size| && Product(out) == numel
    && forall i :: 0 <= i < |size| ==> size[i] == -1 || out[i] == size[i]
  }

  predicate AtMostOneHole(size: seq<int>) {
    forall i, j :: 0 <= i < j < |size| ==> size[i] != -1 || size[j] != -1
  }

  /** The requests that make sense: one hole at most, and exactly one way to fill it. */
  ghost predicate Viewable(size: seq<int>, numel: nat) {
    && AtMostOneHole(size)
    && (forall i :: 0 <= i < |size| ==> size[i] >= -1)
    && (exists out :: Completes(out, size, numel))
    && (forall out, other :: Completes(out, size, numel) && Completes(other, size, numel) ==> out == other)
  }

  lemma {:induction false} ProductConcat(a: Shape, b: Shape)
    ensures Product(a + b) == Product(a) * Product(b)
  {
    if a == [] {
      assert a + b == b;
    } else {
      assert (a + b)[1..] == a[1..] + b;
      ProductConcat(a[1..], b);
      MulAssoc(a[0], Product(a[1..]), Product(b));
    }
  }

  lemma MulAssoc(x: nat, y: nat, z: nat)
    ensures x * (y * z) == (x * y) * z
  {
  }

  lemma ProductOne(d: nat)
    ensures Product([d]) == d
  {
    assert [d][1..] == [];
  }

  /** The element count as the hole's size times that of the rest. */
  lemma ProductAt(out: Shape, i: nat)
    requires i < |out|
    ensures Product(out) == out[i] * Product(out[i := 1])
  {
    hide Product;
    var a, b := out[..i], out[i + 1..];
    assert out == a + ([out[i]] + b) && out[i := 1] == a + ([1] + b);
    ProductConcat(a, [out[i]] + b);
    ProductConcat([out[i]], b);
    ProductConcat(a, [1] + b);
    ProductConcat([1], b);
    ProductOne(out[i]);
    ProductOne(1);
    MiddleFactor(Product(a), out[i], Product(b));
  }

  lemma MiddleFactor(x: int, y: int, z: int)
    ensures x * (y * z) == y * (x * z)
  {
  }

  lemma ProductSnoc(a: Shape, d: nat)
    ensures Product(a + [d]) == Product(a) * d
  {
    ProductConcat(a, [d]);
    ProductOne(d);
  }

  /** With the hole at i filled by 1, filling it by d multiplies the element count by d. */
  lemma HoleFilled(size: seq<int>, base: Shape, i: nat, numel: nat)
    requires i < |size| == |base| && size[i] == -1 && base[i] == 1 && AtMostOneHole(size)
    requires forall k :: 0 <= k < |size| && k != i ==> base[k] == size[k]
    ensures forall out :: Completes(out, size, numel) <==>
              |out| == |size| && out == base[i := out[i]] && out[i] * Product(base) == numel
  {
    forall out: Shape | |out| == |size| && out == base[i := out[i]]
      ensures Product(out) == out[i] * Product(base)
    {
      ProductAt(out, i);
      assert out[i := 1] == base;
    }
    forall out | Completes(out, size, numel) ensures out == base[i := out[i]] {
    }
  }

  lemma Divides(numel: nat, p: nat)
    requires p > 0
    ensures (exists d: nat :: d * p == numel) <==> numel % p == 0
    ensures numel % p == 0 ==> (numel / p) * p == numel
    ensures forall d: nat :: d * p == numel ==> d == numel / p
  {
    forall d: nat | d * p == numel ensures d == numel / p && numel % p == 0 {
      DivMod(d, 0, p);
    }
    var d := numel / p;
    assert numel == p * d + numel % p;
    if numel % p == 0 { assert d * p == numel; }
  }

  /** A request with a hole makes sense exactly when the known part divides the element count. */
  lemma HoleViewable(size: seq<int>, base: Shape, i: nat, numel: nat)
    requires i < |size| == |base| && size[i] == -1 && base[i] == 1 && AtMostOneHole(size)
    requires forall k :: 0 <= k < |size| && k != i ==> base[k] == size[k]
    ensures Viewable(size, numel) <==> Product(base) != 0 && numel % Product(base) == 0
    ensures Viewable(size, numel) ==> Completes(base[i := numel / Product(base)], size, numel)
  {
    hide Product;
    var p := Product(base);
    HoleFilled(size, base, i, numel);
    if p == 0 {
      if numel == 0 {
        assert Completes(base[i := 0], size, numel) && Completes(base[i := 1], size, numel);
        assert base[i := 0][i] != base[i := 1][i];
      } else {
        assert forall out :: !Completes(out, size, numel);
      }
    } else {
      Divides(numel, p);
      if numel % p == 0 {
        assert Completes(base[i := numel / p], size, numel);
        forall out, other | Completes(out, size, numel) && Completes(other, size, numel) ensures out == other {
        }
      } else {
        assert forall out :: !Completes(out, size, numel);
      }
    }
  }

  /** A request without a hole makes sense exactly when it keeps the element count. */
  lemma FullViewable(size: seq<int>, base: Shape, numel: nat)
    requires |base| == |size| && forall k :: 0 <= k < |size| ==> size[k] != -1 && base[k] == size[k]
    ensures Viewable(size, numel) <==> Product(base) == numel
    ensures Product(base) == numel ==> Completes(base, size, numel)
  {
    forall out: Shape | |out| == |size| && (forall i :: 0 <= i < |size| ==> size[i] == -1 || out[i] == size[i])
      ensures out == base
    {
    }
    if Product(base) == numel { assert Completes(base, size, numel); }
  }

  // ----- 64-bit products -----

  const SIZE_MODULUS := 0x1_0000_0000_0000_0000
  const SIZE_LIMIT := 0x8000_0000_0000_0000

  /** A 64-bit signed number. */
  predicate Fits64(n: int) { -SIZE_LIMIT <= n < SIZE_LIMIT }

  /** Reduction to 64 bits, in two's complement. */
  function Signed64(n: int): (r: int)
    ensures Fits64(r) && (Fits64(n) ==> r == n)
  {
    var w := n % SIZE_MODULUS;
    if w >= SIZE_LIMIT then w - SIZE_MODULUS else w
  }

  lemma SignedShift(x: int, y: int)
    ensures Signed64(x - SIZE_MODULUS * y) == Signed64(x)
  {
  }

  /** Reducing early or late makes no difference to a product. */
  lemma SignedProduct(p: int, d: int)
    ensures Signed64(Signed64(p) * d) == Signed64(p * d)
  {
    var q := if p % SIZE_MODULUS >= SIZE_LIMIT then p / SIZE_MODULUS + 1 else p / SIZE_MODULUS;
    assert Signed64(p) == p - SIZE_MODULUS * q;
    Distributed(p, SIZE_MODULUS, q, d);
    SignedShift(p * d, q * d);
  }

  lemma Distributed(p: int, m: int, q: int, d: int)
    ensures (p - m * q) * d == p * d - m * (q * d)
  {
  }

  /** The requested sizes with a hole taken as one. */
  function Known(size: seq<int>): (known: Shape)
    ensures |known| == |size|
    ensures forall i :: 0 <= i < |size| ==> known[i] == if size[i] < 0 then 1 else size[i]
  {
    seq(|size|, i requires 0 <= i < |size| => if size[i] < 0 then 1 else size[i])
  }

  predicate HasHole(size: seq<int>) {
    exists i :: 0 <= i < |size| && size[i] == -1
  }

  /** Sizes of the right form: one hole at most and nothing else negative. */
  predicate WellFormed(size: seq<int>) {
    AtMostOneHole(size) && forall i :: 0 <= i < |size| ==> size[i] >= -1
  }

  /** The 64-bit product of the known sizes is taken for another one: it comes out as zero for an
      empty tensor, or it has left the 64-bit range and happens to fit the element count. */
  predicate Misjudges(size: seq<int>, numel: nat) {
    var p := Product(Known(size));
    var k := Signed64(p);
    && WellFormed(size)
    && if !HasHole(size) then p >= SIZE_LIMIT && k == numel
       else if numel == 0 then p != 0 && k == 0
       else p >= SIZE_LIMIT && k != 0 && numel % k == 0
  }

  /** What the code makes of the product. */
  predicate Passes(size: seq<int>, numel: nat) {
    var k := Signed64(Product(Known(size)));
    WellFormed(size) && if HasHole(size) then k != 0 && numel % k == 0 else k == numel
  }

  lemma TooLarge(numel: nat, p: nat)
    requires 0 < numel < p
    ensures numel % p != 0
  {
  }

  /** The code judges a request rightly exactly when it does not misjudge the product. */
  lemma PassesUnlessMisjudged(size: seq<int>, numel: nat)
    requires numel < SIZE_LIMIT
    ensures (Passes(size, numel) <==> Viewable(size, numel)) <==> !Misjudges(size, numel)
  {
    hide Product, Viewable, Signed64;
    var base := Known(size);
    var p := Product(base);
    if !WellFormed(size) {
      NeverViewable(size, numel);
    } else if i :| 0 <= i < |size| && size[i] == -1 {
      HoleViewable(size, base, i, numel);
      if p >= SIZE_LIMIT && numel > 0 { TooLarge(numel, p); }
      if numel == 0 && Signed64(p) != 0 { NothingLeft(Signed64(p)); }
      if numel == 0 && p != 0 { NothingLeft(p); }
    } else {
      FullViewable(size, base, numel);
    }
  }

  lemma NothingLeft(k: int)
    requires k != 0
    ensures 0 % k == 0
  {
  }

  lemma NeverViewable(size: seq<int>, numel: nat)
    requires !WellFormed(size)
    ensures !Viewable(size, numel)
  {
  }

  /** Accepts, unless the 64-bit product misleads it, exactly the requests with at most one hole and
      a unique completion, and returns that completion. */
  method InferViewSize(numel: nat, size: seq<int>) returns (r: Option<seq<int>>)
    requires Fits64(numel) && forall i :: 0 <= i < |size| ==> Fits64(size[i])
    ensures (r.Some? <==> Viewable(size, numel)) <==> !Misjudges(size, numel)
    ensures r.Some? && !Misjudges(size, numel) ==>
              Sizes(r.value) && Completes(r.value, size, numel)
  {
    hide Product, Viewable, Completes, Signed64, Misjudges, WellFormed;
    var inferred: Shape := [];
    var knownProduct := 1;
    var inferredDim := -1;
    NothingBehind();
    PassesUnlessMisjudged(size, numel);
    for i := 0 to |size|
      invariant |inferred| == i && -1 <= inferredDim < i && knownProduct == Signed64(Product(inferred))
      invariant inferredDim >= 0 ==> size[inferredDim] == -1 && inferred[inferredDim] == 1
      invariant forall k :: 0 <= k < i && k != inferredDim ==> size[k] >= 0 && inferred[k] == size[k]
    {
      var dim := size[i];
      if dim == -1 {
        if inferredDim >= 0 {
          TwoHoles(size, inferredDim, i);
          return None;
        }
        ProductSnoc(inferred, 1);
        inferredDim := i;
        inferred := inferred + [1];
      } else {
        if dim < 0 {
          TwoHoles(size, i, i);
          return None;
        }
        ProductSnoc(inferred, dim);
        SignedProduct(Product(inferred), dim);
        knownProduct := Signed64(knownProduct * dim);
        inferred := inferred + [dim];
      }
    }
    FormIsKnown(size, inferred, inferredDim);
    if inferredDim >= 0 {
      if knownProduct == 0 || numel % knownProduct != 0 {
        return None;
      }
      HoleJudged(size, inferredDim, numel);
      var out: seq<int> := inferred;
      return Some(out[inferredDim := numel / knownProduct]);
    } else {
      FullJudged(size, numel);
      if knownProduct != numel {
        return None;
      }
      return Some(inferred);
    }
  }

  lemma TwoHoles(size: seq<int>, i: nat, j: nat)
    requires i <= j < |size| && (size[i] < -1 || (i < j && size[i] == -1 && size[j] == -1))
    ensures !WellFormed(size)
  {
  }

  /** What the loop has collected when it ends. */
  lemma FormIsKnown(size: seq<int>, inferred: Shape, hole: int)
    requires |inferred| == |size| && -1 <= hole < |size|
    requires hole >= 0 ==> size[hole] == -1 && inferred[hole] == 1
    requires forall k :: 0 <= k < |size| && k != hole ==> size[k] >= 0 && inferred[k] == size[k]
    ensures WellFormed(size) && inferred == Known(size) && (HasHole(size) <==> hole >= 0)
  {
  }

  /** A request with a hole that passes and is not misjudged is completed by the quotient. */
  lemma HoleJudged(size: seq<int>, i: nat, numel: nat)
    requires i < |size| && size[i] == -1 && WellFormed(size) && numel < SIZE_LIMIT && Passes(size, numel)
    ensures !Misjudges(size, numel) ==>
              var k := Signed64(Product(Known(size)));
              numel / k >= 0 && Completes(Known(size)[i := numel / k], size, numel)
  {
    hide Product, Viewable, Completes;
    if !Misjudges(size, numel) {
      PassesUnlessMisjudged(size, numel);
      HoleViewable(size, Known(size), i, numel);
      var p := Product(Known(size));
      if numel == 0 {
        ZeroQuotient(Signed64(p));
        ZeroQuotient(p);
      }
    }
  }

  lemma ZeroQuotient(k: int)
    requires k != 0
    ensures 0 / k == 0
  {
  }

  lemma FullJudged(size: seq<int>, numel: nat)
    requires WellFormed(size) && !HasHole(size) && numel < SIZE_LIMIT
    ensures Signed64(Product(Known(size))) == numel && !Misjudges(size, numel) ==> Completes(Known(size), size, numel)
  {
    hide Product, Viewable, Completes;
    FullViewable(size, Known(size), numel);
  }

  /** A tensor without elements is accepted as one of 2^32 rows of 2^32. */
  method EmptyAsHuge() returns (r: Option<seq<int>>)
    ensures r.Some? && !Viewable([0x1_0000_0000, 0x1_0000_0000], 0)
  {
    var size := [0x1_0000_0000, 0x1_0000_0000];
    assert Known(size) == [0x1_0000_0000, 0x1_0000_0000];
    ProductOne(0x1_0000_0000);
    ProductSnoc([0x1_0000_0000], 0x1_0000_0000);
    assert Known(size) == [0x1_0000_0000] + [0x1_0000_0000];
    FullViewable(size, Known(size), 0);
    r := InferViewSize(0, size);
  }

  // ----- views -----

  /** A tensor as an alias of a storage: where its elements are. */
  datatype Tensor = Tensor(shape: Shape, strides: seq<nat>, storageOffset: nat)

  predicate WellShaped(t: Tensor) {
    |t.strides| == |t.shape|
  }

  /** The storage element a multi-index names. */
  function Element(t: Tensor, index: seq<nat>): nat
    requires WellShaped(t) && InShape(index, t.shape)
  {
    t.storageOffset + Dot(index, t.strides)
  }

  /** Elements are laid out in index order without gaps. */
  ghost predicate Contiguous(t: Tensor)
    requires WellShaped(t)
  {
    forall index :: InShape(index, t.shape) ==> Dot(index, t.strides) == Dot(index, Strides(t.shape))
  }

  /** The sizes, strides and offset of an alias, as they are handed to the tensor library. */
  datatype Alias = Alias(sizes: seq<int>, strides: seq<int>, storageOffset: nat)

  /** Refuses a tensor that is not contiguous, as the tensor library reports it; otherwise shares
      the storage under new strides. It is right about the request unless the 64-bit product
      misleads it. */
  method ViewAs(self: Tensor, isContiguous: bool, size: seq<int>) returns (r: Option<Alias>)
    requires WellShaped(self) && (isContiguous <==> Contiguous(self))
    requires Fits64(Product(self.shape)) && forall i :: 0 <= i < |size| ==> Fits64(size[i])
    ensures (r.Some? <==> Contiguous(self) && Viewable(size, Product(self.shape)))
            <==> !(Contiguous(self) && Misjudges(size, Product(self.shape)))
    ensures r.Some? ==> r.value == Alias(r.value.sizes, Strides(r.value.sizes), self.storageOffset)
    ensures r.Some? && !Misjudges(size, Product(self.shape)) ==>
              Sizes(r.value.sizes) && Completes(r.value.sizes, size, Product(self.shape))
  {
    if !isContiguous {
      return None;
    }
    var inferred := InferViewSize(Product(self.shape), size);
    if inferred.None? {
      return None;
    }
    var strides := ContiguousStrides(inferred.value);
    return Some(Alias(inferred.value, strides, self.storageOffset));
  }

  /** A view only renames elements: each of its multi-indices names the same storage element as
      exactly one multi-index of the original, and the other way round. */
  lemma ViewRenames(self: Tensor, view: Tensor, index: seq<nat>) returns (other: seq<nat>)
    requires WellShaped(self) && Contiguous(self) && Product(view.shape) == Product(self.shape)
    requires view == Tensor(view.shape, Strides(view.shape), self.storageOffset)
    requires InShape(index, view.shape)
    ensures InShape(other, self.shape) && Element(self, other) == Element(view, index)
    ensures forall also :: InShape(also, self.shape) && Element(self, also) == Element(view, index) ==> also == other
    ensures forall also :: InShape(also, view.shape) && Element(view, also) == Element(self, other) ==> also == index
  {
    hide Dot, Product, Strides, Unravel;
    var n := Dot(index, Strides(view.shape));
    OffsetInRange(index, view.shape);
    other := Unravel(n, self.shape);
    OffsetOfUnravel(n, self.shape);
    forall also | InShape(also, self.shape) && Element(self, also) == Element(view, index) ensures also == other {
      UnravelOfOffset(also, self.shape);
    }
    forall also | InShape(also, view.shape) && Element(view, also) == Element(self, other) ensures also == index {
      UnravelOfOffset(also, view.shape);
      UnravelOfOffset(index, view.shape);
    }
  }
}
