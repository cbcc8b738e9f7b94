/** Run receipts: a dictionary stamped with the digest of everything else in it. */
module Receipts {
  import opened Outcomes
  import opened Json
  import opened JsonCanonical
  import opened JsonParsed
  import opened Dicts
  import opened Ledgers

  const RECEIPT_SHA := Py("receipt_sha256")

  function ReceiptBody(receipt: seq<Field>): seq<Field> {
    Without(receipt, RECEIPT_SHA)
  }

  function BodyDigest(h: Hash, receipt: seq<Field>): Value {
    DigestOf(h, Obj(ReceiptBody(receipt)))
  }

  /** `receipt_problems(receipt) == []`; a missing digest reads as None and never matches. */
  predicate Verifies(h: Hash, receipt: seq<Field>) {
    Get(receipt, RECEIPT_SHA) == Some(BodyDigest(h, receipt))
  }

  /** A receipt verifies exactly when it holds, under its key, the digest of everything else in it. */
  lemma VerifiesIff(h: Hash, receipt: seq<Field>)
    ensures Verifies(h, receipt) <==>
      && Has(receipt, Py("receipt_sha256"))
      && Get(receipt, Py("receipt_sha256")).value == Str(h(Canonical(Obj(Without(receipt, Py("receipt_sha256"))))))
  {
  }

  /** A receipt in the caller's hands, and the file it is written to. */
  class Receipt {
    const digest: Hash
    var fields: seq<Field>
    var file: Option<seq<Field>>

    constructor (digest: Hash, fields: seq<Field>)
      ensures this.digest == digest && this.fields == fields && file == None
    {
      this.digest := digest;
      this.fields := fields;
      this.file := None;
    }

    /**
     Stamps the caller's dictionary in place and writes a second, equal one.  When
     the file cannot be written or renamed this raises, with the dictionary
     already stamped and the file as it was.
     */
    method Write(storable: bool) returns (d: Result<Value>)
      modifies this
      ensures d == if storable then Ok(BodyDigest(digest, old(fields))) else Err("OSError")
      ensures fields == Put(old(fields), RECEIPT_SHA, BodyDigest(digest, old(fields)))
      ensures file == if storable then Some(Put(ReceiptBody(old(fields)), RECEIPT_SHA,
        BodyDigest(digest, old(fields)))) else old(file)
    {
      var body := ReceiptBody(fields);
      var stamp := DigestOf(digest, Obj(body));
      fields := Put(fields, RECEIPT_SHA, stamp);
      if !storable {
        return Err("OSError");
      }
      file := Some(Put(body, RECEIPT_SHA, stamp));
      return Ok(stamp);
    }
  }

  /** The stamped receipt and the written one verify, and stamping again yields the same digest. */
  lemma WrittenReceiptVerifies(h: Hash, receipt: seq<Field>)
    requires WellFormed(Obj(receipt))
    ensures var d := BodyDigest(h, receipt);
            var stamped, written := Put(receipt, RECEIPT_SHA, d), Put(ReceiptBody(receipt), RECEIPT_SHA, d);
      && Verifies(h, stamped) && Verifies(h, written)
      && BodyDigest(h, stamped) == d && BodyDigest(h, written) == d
      && SameValue(Obj(stamped), Obj(written))
  {
    var d, body := BodyDigest(h, receipt), ReceiptBody(receipt);
    WithoutUnique(receipt, RECEIPT_SHA);
    WithoutPut(receipt, RECEIPT_SHA, d);
    WithoutPut(body, RECEIPT_SHA, d);
    GetPut(receipt, RECEIPT_SHA, d, RECEIPT_SHA);
    GetPut(body, RECEIPT_SHA, d, RECEIPT_SHA);
    GetWithout(receipt, RECEIPT_SHA, RECEIPT_SHA);
    WithoutAbsent(body, RECEIPT_SHA);
    SameStamped(receipt, d);
  }

  lemma SameStamped(receipt: seq<Field>, d: Value)
    requires WellFormed(Obj(receipt)) && d.Str?
    ensures SameValue(Obj(Put(receipt, RECEIPT_SHA, d)), Obj(Put(ReceiptBody(receipt), RECEIPT_SHA, d)))
  {
    var body := ReceiptBody(receipt);
    var a, b := Put(receipt, RECEIPT_SHA, d), Put(body, RECEIPT_SHA, d);
    WithoutUnique(receipt, RECEIPT_SHA);
    PutKeepsUnique(receipt, RECEIPT_SHA, d);
    PutKeepsUnique(body, RECEIPT_SHA, d);
    forall k
      ensures Get(a, k) == Get(b, k)
      ensures Get(a, k).Some? ==> SameValue(Get(a, k).value, Get(b, k).value)
    {
      GetPut(receipt, RECEIPT_SHA, d, k);
      GetPut(body, RECEIPT_SHA, d, k);
      GetWithout(receipt, RECEIPT_SHA, k);
      if k != RECEIPT_SHA && Get(a, k).Some? {
        assert WellFormed(receipt[IndexOf(receipt, k)].value);
        SameValueIffSorted(Get(a, k).value, Get(a, k).value);
      }
    }
    SameByGet(a, b);
  }

  /**
   Anything that carries a verified receipt's digest verifies exactly when it is
   the same receipt in every other field -- unless the two bodies collide.
   */
  lemma AnyChangeIsReported(h: Hash, receipt: seq<Field>, other: seq<Field>)
    requires Plain(Obj(receipt)) && Plain(Obj(other))
    requires Verifies(h, receipt) && Get(other, RECEIPT_SHA) == Get(receipt, RECEIPT_SHA)
    ensures var x, y := Canonical(Obj(ReceiptBody(receipt))), Canonical(Obj(ReceiptBody(other)));
      (h(x) == h(y) ==> x == y) ==>
        (Verifies(h, other) <==> SameValue(Obj(ReceiptBody(receipt)), Obj(ReceiptBody(other))))
  {
    WithoutPlain(receipt, RECEIPT_SHA);
    WithoutPlain(other, RECEIPT_SHA);
    CanonicalIffSameValue(Obj(ReceiptBody(receipt)), Obj(ReceiptBody(other)));
  }
}
