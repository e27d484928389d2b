/** The header that precedes every block and region (`Header<T>`, an intrusive list
    node). Addresses are naturals; `hs` is `size_of::<Header<T>>()`, a positive
    number that depends on the payload type `T`, so it is a parameter. */
module Header {
  import opened Types

  type HeaderSize = n: nat | n > 0 witness 1

  /** `c` points right after some non-null header of size `hs`. */
  predicate IsContentAddress(hs: HeaderSize, c: Addr) {
    c > hs
  }

  /** `Header::content_address_of`: `offset(1)` on a `*mut Header<T>` moves `hs` bytes. */
  function ContentAddressOf(hs: HeaderSize, header: Addr): (content: Addr)
    ensures IsContentAddress(hs, content)
    ensures header < content
  {
    header + hs
  }

  /** `Header::from_content_address`: cast to `*mut Header<T>` and `offset(-1)`.
      The caller must hand in an address that follows a header, so that the
      result is again a non-null header address. */
  function FromContentAddress(hs: HeaderSize, content: Addr): (header: Addr)
    requires IsContentAddress(hs, content)
    ensures header < content
  {
    content - hs
  }

  lemma FromContentOfHeader(hs: HeaderSize, header: Addr)
    ensures FromContentAddress(hs, ContentAddressOf(hs, header)) == header
  {
  }

  lemma ContentOfHeaderFrom(hs: HeaderSize, content: Addr)
    requires IsContentAddress(hs, content)
    ensures ContentAddressOf(hs, FromContentAddress(hs, content)) == content
  {
  }

  /** `a` lies in the half-open byte range `[lo, hi)`. */
  predicate Within(lo: nat, hi: nat, a: nat) {
    lo <= a < hi
  }

  /** `a` is one of the bytes occupied by the header at `header`. */
  predicate InHeader(hs: HeaderSize, header: Addr, a: nat) {
    Within(header, header + hs, a)
  }

  /** `a` is one of the `size` content bytes that follow the header at `header`. */
  predicate InContent(hs: HeaderSize, header: Addr, size: nat, a: nat) {
    var c := ContentAddressOf(hs, header);
    Within(c, c + size, a)
  }

  /** Header and content never share a byte, and together they are exactly the
      contiguous span `[header, header + hs + size)`: the content begins where the
      header ends. */
  lemma HeaderContentAdjacent(hs: HeaderSize, header: Addr, size: nat)
    ensures forall a :: !(InHeader(hs, header, a) && InContent(hs, header, size, a))
    ensures forall a ::
      (InHeader(hs, header, a) || InContent(hs, header, size, a)) <==> Within(header, header + hs + size, a)
    ensures !InHeader(hs, header, ContentAddressOf(hs, header))
    ensures InHeader(hs, header, ContentAddressOf(hs, header) - 1)
  {
  }

  /** Distinct headers have distinct content addresses, in the same order. */
  lemma ContentAddressMonotone(hs: HeaderSize, h1: Addr, h2: Addr)
    ensures h1 < h2 <==> ContentAddressOf(hs, h1) < ContentAddressOf(hs, h2)
    ensures h1 == h2 <==> ContentAddressOf(hs, h1) == ContentAddressOf(hs, h2)
  {
  }

  /** Distinct content addresses come from distinct headers. */
  lemma FromContentAddressInjective(hs: HeaderSize, c1: Addr, c2: Addr)
    requires IsContentAddress(hs, c1) && IsContentAddress(hs, c2)
    ensures c1 < c2 <==> FromContentAddress(hs, c1) < FromContentAddress(hs, c2)
    ensures c1 == c2 <==> FromContentAddress(hs, c1) == FromContentAddress(hs, c2)
  {
  }
}
