/** Where `create` puts things in the mapping, and the test `open` makes before trusting it. */
module RingLayout {
  const RING_SLOTS := 3
  const RING_HEADER := 64
  const SLOT_HEADER := 64
  const MAGIC := 0x4d43414d
  const VERSION := 2
  const DWORD_MAX := 0xFFFF_FFFF
  const MAX_STRIDE := 16 * 1024 * 1024

  datatype Header = Header(magic: nat, version: nat, width: nat, height: nat,
                           pitch: nat, frameBytes: nat, slotStride: nat, fps: nat)

  const BLANK := Header(0, 0, 0, 0, 0, 0, 0, 0)

  /** The sizes `create` lets through. */
  predicate Creatable(width: nat, height: nat, fps: nat) {
    && 1 <= fps <= 120
    && 1 <= width <= 3840 && 1 <= height <= 2160
    && width % 2 == 0 && height % 2 == 0
  }

  function Payload(width: nat, height: nat): nat { width * height * 3 / 2 }

  function Stride(width: nat, height: nat): nat { (SLOT_HEADER + Payload(width, height) + 63) / 64 * 64 }

  function MappingSize(width: nat, height: nat): nat { RING_HEADER + Stride(width, height) * RING_SLOTS }

  function SlotBase(stride: nat, i: nat): nat { RING_HEADER + i * stride }

  /** The header `create` leaves behind. */
  function Created(width: nat, height: nat, fps: nat): Header {
    Header(MAGIC, VERSION, width, height, width, Payload(width, height), Stride(width, height), fps)
  }

  const FIELDS := 8

  /** The test `open` makes on the k-th field it loads, against those loaded before. */
  predicate FieldOk(h: Header, k: nat)
    requires k < FIELDS
  {
    match k
    case 0 => h.magic == MAGIC
    case 1 => h.version == VERSION
    case 2 => 160 <= h.width <= 3840 && h.width % 2 == 0
    case 3 => 120 <= h.height <= 2160 && h.height % 2 == 0
    case 4 => h.pitch == h.width
    case 5 => h.fps == 60
    case 6 => h.frameBytes == Payload(h.width, h.height)
    case 7 => h.frameBytes + SLOT_HEADER <= h.slotStride <= MAX_STRIDE
  }

  predicate Accepts(h: Header) { forall k :: 0 <= k < FIELDS ==> FieldOk(h, k) }

  /** The same test as one chain of comparisons, as the program writes it. */
  lemma AcceptsIff(h: Header)
    ensures Accepts(h) <==>
      && h.magic == 0x4d43414d && h.version == 2 && 160 <= h.width <= 3840 && 120 <= h.height <= 2160
      && h.width % 2 == 0 && h.height % 2 == 0 && h.pitch == h.width && h.fps == 60
      && h.frameBytes == h.width * h.height * 3 / 2
      && h.frameBytes + 64 <= h.slotStride <= 16 * 1024 * 1024
  {
    if Accepts(h) {
      assert FieldOk(h, 0) && FieldOk(h, 1) && FieldOk(h, 2) && FieldOk(h, 3);
      assert FieldOk(h, 4) && FieldOk(h, 5) && FieldOk(h, 6) && FieldOk(h, 7);
    }
  }

  lemma ProductBound(a: nat, b: nat, c: nat, d: nat)
    requires a <= c && b <= d
    ensures a * b <= c * d
  {
    assert a * b <= c * b && c * b <= c * d;
  }

  /** NV12 has one and a half bytes a pixel: a plane of luma and half a plane of chroma. */
  lemma PayloadOf(width: nat, height: nat, fps: nat)
    requires Creatable(width, height, fps)
    ensures Payload(width, height) == width * height + width * (height / 2)
    ensures 6 <= Payload(width, height) <= 3840 * 2160 * 3 / 2
  {
    ProductBound(width, height, 3840, 2160);
    ProductBound(2, 2, width, height);
    assert width * height == 2 * (width * (height / 2));
  }

  /** For every size `create` lets through: slots start on 64-byte lines, hold their header and a
      whole picture, do not touch each other, end with the mapping, waste less than a line,
      and the 32-bit size guard and casts never lose anything. */
  lemma LayoutSound(width: nat, height: nat, fps: nat)
    requires Creatable(width, height, fps)
    ensures var stride, size := Stride(width, height), MappingSize(width, height);
            && size == 64 + 3 * stride <= 0xFFFF_FFFF
            && SLOT_HEADER + Payload(width, height) <= stride < SLOT_HEADER + Payload(width, height) + 64
            && (forall i: nat :: i < RING_SLOTS ==>
                  && SlotBase(stride, i) % 64 == 0
                  && RING_HEADER <= SlotBase(stride, i)
                  && SlotBase(stride, i) + stride <= size)
            && (forall i: nat, j: nat :: i < j < RING_SLOTS ==> SlotBase(stride, i) + stride <= SlotBase(stride, j))
  {
    PayloadOf(width, height, fps);
    Lines(Payload(width, height));
    SlotsApart(Stride(width, height));
  }

  /** A stride is the least number of whole lines that holds slot header and picture. */
  lemma Lines(payload: nat)
    ensures var stride := (SLOT_HEADER + payload + 63) / 64 * 64;
            stride % 64 == 0 && SLOT_HEADER + payload <= stride < SLOT_HEADER + payload + 64
  {}

  lemma SlotBases(stride: nat)
    ensures SlotBase(stride, 0) == RING_HEADER && SlotBase(stride, 1) == RING_HEADER + stride
    ensures SlotBase(stride, 2) == RING_HEADER + 2 * stride
  {}

  lemma SlotsApart(stride: nat)
    requires stride % 64 == 0
    ensures forall i: nat :: i < RING_SLOTS ==>
              SlotBase(stride, i) % 64 == 0 && RING_HEADER <= SlotBase(stride, i)
              && SlotBase(stride, i) + stride <= RING_HEADER + stride * RING_SLOTS
    ensures forall i: nat, j: nat :: i < j < RING_SLOTS ==> SlotBase(stride, i) + stride <= SlotBase(stride, j)
  {
    SlotBases(stride);
    forall i: nat | i < RING_SLOTS
      ensures SlotBase(stride, i) % 64 == 0 && RING_HEADER <= SlotBase(stride, i)
              && SlotBase(stride, i) + stride <= RING_HEADER + stride * RING_SLOTS
    {
      assert i == 0 || i == 1 || i == 2;
    }
    forall i: nat, j: nat | i < j < RING_SLOTS ensures SlotBase(stride, i) + stride <= SlotBase(stride, j) {
      assert (i == 0 && (j == 1 || j == 2)) || (i == 1 && j == 2);
    }
  }

  /** A camera accepts exactly the rings of at least 160x120 that run at 60 frames a second. */
  lemma OpenAcceptsCreated(width: nat, height: nat, fps: nat)
    requires Creatable(width, height, fps)
    ensures Accepts(Created(width, height, fps)) <==> 160 <= width && 120 <= height && fps == 60
  {
    var h := Created(width, height, fps);
    LayoutSound(width, height, fps);
    PayloadOf(width, height, fps);
    if Accepts(h) {
      assert FieldOk(h, 2) && FieldOk(h, 3) && FieldOk(h, 5);
    }
  }
}
