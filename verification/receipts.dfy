/**
 Decoding listed receipt files into records (run.py, `get_google_drive_data`).
 A name shaped like `YYYYMMDD_CUR_AMOUNT_Supplier(Local).ext` loses its
 extension, is split on '_' into positional segments, and its fourth segment
 is split by `split_by_parenthesis`. The dictionary literal is evaluated in
 the order Date, Currency, Paid, Supplier_EN, Supplier_LOCAL, Format, ID,
 ParentID, so the first failure is decided in that order: a bad date token
 (ValueError) before a missing segment (IndexError) before a missing
 'parents' key (KeyError). The amount is kept as the token that `float`
 would read.
 */
module Receipts {
  import opened Strings
  import opened Suppliers
  import opened Dates

  datatype Option<T> = None | Some(value: T)

  /** One file of the remote listing: its id, its name and, when the listing
      carries them, its parent folder ids. */
  datatype RawItem = RawItem(id: string, name: string, parents: Option<seq<string>>)

  /** The fields read from a file name. */
  datatype Receipt = Receipt(date: Date, currency: string, paid: string,
                             supplierEn: string, supplierLocal: string, format: string)

  /** One row of the decoded data: a receipt with the file's id and parents. */
  datatype Record = Record(receipt: Receipt, id: string, parentId: seq<string>)

  /** Why decoding stopped: `strptime` rejected the date token (ValueError),
      the date token is one this model does not decide, the name has fewer
      than four segments (IndexError), or the item has no parents (KeyError). */
  datatype DecodeError = DateRejected | DateNotModelled | TooFewSegments | MissingParents

  datatype Result<T> = Ok(value: T) | Err(error: DecodeError)

  /** What `get_google_drive_data` gives back: nothing for an empty listing,
      the header and one record per item, or the exception that ended the
      loop at item `at`. */
  datatype Listing = NoFiles | Table(header: seq<string>, data: seq<Record>) | Aborted(at: nat, error: DecodeError)

  const Header: seq<string> := ["Format", "Date", "Paid", "Currency", "Supplier_EN", "Supplier_LOCAL"]

  /** The name without its extension: a prefix of the name, and the whole
      name when it has no dot. */
  function Stem(name: string): (stem: string)
    ensures |stem| <= |name| && name[..|stem|] == stem
    ensures '.' !in name ==> stem == name
  {
    SplitExt(name).0
  }

  /** The extension without its dot: `splitext(name)[1][1:]`. The stem, a
      dot and the extension make up the name again, or the name has no
      extension at all. */
  function Extension(name: string): (ext: string)
    ensures '.' !in ext
    ensures name == Stem(name) + ['.'] + ext || (name == Stem(name) && ext == [])
  {
    var dotted := SplitExt(name).1;
    assert dotted != [] ==> dotted == ['.'] + dotted[1..];
    Slice(dotted, 1, |dotted|)
  }

  /** `stem.split('_')`: pieces free of '_' that, joined by '_', give the
      stem back. */
  function Segments(name: string): (segs: seq<string>)
    ensures |segs| >= 1
    ensures forall k :: 0 <= k < |segs| ==> '_' !in segs[k]
    ensures Join(segs, '_') == Stem(name)
  {
    JoinSplit(Stem(name), '_');
    SplitOn(Stem(name), '_')
  }

  /** The receipt a name describes. It succeeds exactly when the first
      segment is a date and there are at least four segments; the date is
      the one read from the first segment, the currency and amount are segments
      1 and 2 unchanged, and both supplier names come from segment 3. */
  function DecodeName(name: string): (r: Result<Receipt>)
    ensures r.Ok? <==> ParseDate(Segments(name)[0]).Parsed? && |Segments(name)| >= 4
    ensures r == Err(DateRejected) <==> ParseDate(Segments(name)[0]).Rejected?
    ensures r == Err(DateNotModelled) <==> ParseDate(Segments(name)[0]).NotModelled?
    ensures r == Err(TooFewSegments) <==> ParseDate(Segments(name)[0]).Parsed? && |Segments(name)| < 4
    ensures r.Ok? ==>
      var segs := Segments(name);
      ParseDate(segs[0]) == Parsed(r.value.date) && r.value.currency == segs[1] && r.value.paid == segs[2] &&
      [r.value.supplierEn, r.value.supplierLocal] == SplitByParenthesis(segs[3]) &&
      r.value.format == Extension(name)
  {
    var segs := Segments(name);
    match ParseDate(segs[0])
    case Rejected => Err(DateRejected)
    case NotModelled => Err(DateNotModelled)
    case Parsed(d) =>
      if |segs| < 4 then Err(TooFewSegments)
      else
        var supplier := SplitByParenthesis(segs[3]);
        Ok(Receipt(d, segs[1], segs[2], supplier[0], supplier[1], Extension(name)))
  }

  /** The record for one listed item: the name's error if it has one, else
      the missing-parents error, else the receipt with id and parents copied. */
  function DecodeItem(item: RawItem): (r: Result<Record>)
    ensures DecodeName(item.name).Err? ==> r == Err(DecodeName(item.name).error)
    ensures DecodeName(item.name).Ok? && item.parents.None? ==> r == Err(MissingParents)
    ensures r.Ok? <==> DecodeName(item.name).Ok? && item.parents.Some?
    ensures r.Ok? ==>
      r.value.receipt == DecodeName(item.name).value && r.value.id == item.id &&
      item.parents == Some(r.value.parentId)
  {
    match DecodeName(item.name)
    case Err(e) => Err(e)
    case Ok(receipt) =>
      match item.parents
      case None => Err(MissingParents)
      case Some(parents) => Ok(Record(receipt, item.id, parents))
  }

  /** A listing decoded item by item in listing order with `decode`: the
      table of all the records, or the first failure and its position. */
  function DecodeAll<T>(decode: T -> Result<Record>, items: seq<T>): (r: Listing)
    ensures !r.NoFiles?
    ensures r.Table? ==> r.header == Header && |r.data| == |items|
    ensures r.Aborted? ==> r.at < |items|
    decreases |items|
  {
    if |items| == 0 then Table(Header, [])
    else
      var before := DecodeAll(decode, items[..|items| - 1]);
      if !before.Table? then before
      else
        match decode(items[|items| - 1])
        case Ok(record) => Table(before.header, before.data + [record])
        case Err(e) => Aborted(|items| - 1, e)
  }

  /** A decoded table holds exactly one record per item, in listing order. */
  lemma {:induction false} DecodeAllTable<T>(decode: T -> Result<Record>, items: seq<T>)
    requires DecodeAll(decode, items).Table?
    ensures DecodeAll(decode, items).header == Header
    ensures |DecodeAll(decode, items).data| == |items|
    ensures forall k :: 0 <= k < |items| ==> decode(items[k]) == Ok(DecodeAll(decode, items).data[k])
    decreases |items|
  {
    if |items| > 0 {
      var front := items[..|items| - 1];
      DecodeAllTable(decode, front);
      forall k | 0 <= k < |items| - 1
        ensures decode(items[k]) == Ok(DecodeAll(decode, items).data[k])
      {
        assert items[k] == front[k];
      }
    }
  }

  /** Decoding stops at the first item that fails, and every item before it
      decoded. */
  lemma {:induction false} DecodeAllAborted<T>(decode: T -> Result<Record>, items: seq<T>)
    requires DecodeAll(decode, items).Aborted?
    ensures DecodeAll(decode, items).at < |items|
    ensures decode(items[DecodeAll(decode, items).at]) == Err(DecodeAll(decode, items).error)
    ensures forall k :: 0 <= k < DecodeAll(decode, items).at ==> decode(items[k]).Ok?
    decreases |items|
  {
    assert |items| > 0;
    var front := items[..|items| - 1];
    if DecodeAll(decode, front).Aborted? {
      DecodeAllAborted(decode, front);
      assert items[DecodeAll(decode, items).at] == front[DecodeAll(decode, items).at];
      forall k | 0 <= k < DecodeAll(decode, items).at ensures decode(items[k]).Ok? {
        assert items[k] == front[k];
      }
    } else {
      DecodeAllTable(decode, front);
      forall k | 0 <= k < |items| - 1 ensures decode(items[k]).Ok? {
        assert items[k] == front[k];
      }
    }
  }

  /** The whole listing decodes exactly when every item does. */
  lemma DecodeAllTableIff<T>(decode: T -> Result<Record>, items: seq<T>)
    ensures DecodeAll(decode, items).Table? <==> forall k :: 0 <= k < |items| ==> decode(items[k]).Ok?
  {
    if DecodeAll(decode, items).Table? {
      DecodeAllTable(decode, items);
    } else {
      DecodeAllAborted(decode, items);
    }
  }

  /** Items after a failure change nothing: no partial table is built. */
  lemma {:induction false} AbortedStays<T>(decode: T -> Result<Record>, items: seq<T>, more: seq<T>)
    requires DecodeAll(decode, items).Aborted?
    ensures DecodeAll(decode, items + more) == DecodeAll(decode, items)
    decreases |more|
  {
    if |more| > 0 {
      var all := items + more;
      AbortedStays(decode, items, more[..|more| - 1]);
      assert all[..|all| - 1] == items + more[..|more| - 1];
    } else {
      assert items + more == items;
    }
  }

  /** The decode loop of `get_google_drive_data`, for a per-item decoder
      `decode`: an empty listing gives nothing; otherwise every item is
      decoded in listing order and appended to the data, and the first item
      that fails ends the whole loop with its error. */
  method DecodeLoop<T>(decode: T -> Result<Record>, items: seq<T>) returns (r: Listing)
    ensures r == if |items| == 0 then NoFiles else DecodeAll(decode, items)
  {
    if |items| == 0 {
      return NoFiles;
    }
    var data: seq<Record> := [];
    for i := 0 to |items|
      invariant DecodeAll(decode, items[..i]) == Table(Header, data)
    {
      var decoded := decode(items[i]);
      assert items[..i + 1][..i] == items[..i];
      if decoded.Err? {
        AbortedStays(decode, items[..i + 1], items[i + 1..]);
        assert items[..i + 1] + items[i + 1..] == items;
        return Aborted(i, decoded.error);
      }
      data := data + [decoded.value];
    }
    assert items[..|items|] == items;
    return Table(Header, data);
  }

  /** `get_google_drive_data` from the listing on: the loop above with
      `DecodeItem` as the per-item decoder. */
  method ReadListing(items: seq<RawItem>) returns (r: Listing)
    ensures r == if |items| == 0 then NoFiles else DecodeAll(DecodeItem, items)
  {
    r := DecodeLoop(DecodeItem, items);
  }

  /** The name a receipt is filed under, with `extra` segments after the
      supplier field. */
  function ReceiptName(rc: Receipt, extra: seq<string>): string
    requires ValidDate(rc.date)
  {
    Join([FormatDate(rc.date), rc.currency, rc.paid, SupplierField(rc.supplierEn, rc.supplierLocal)] + extra, '_')
      + ['.'] + rc.format
  }

  /** A receipt whose text fields can be written into a name and read back:
      no '_' or '/' in the segments, no parenthesis in the English name, no
      ')' in the local name, and no '.' or '/' in the extension. */
  predicate Writable(rc: Receipt)
  {
    ValidDate(rc.date) &&
    '_' !in rc.currency && '/' !in rc.currency &&
    '_' !in rc.paid && '/' !in rc.paid &&
    '_' !in rc.supplierEn && '/' !in rc.supplierEn && '(' !in rc.supplierEn && ')' !in rc.supplierEn &&
    '_' !in rc.supplierLocal && '/' !in rc.supplierLocal && ')' !in rc.supplierLocal &&
    '.' !in rc.format && '/' !in rc.format
  }

  /** A name written as segments joined by '_', a dot and an extension is
      read back as those segments and that extension, when no segment holds
      '_' or '/', the first does not start with a dot, and the extension has
      no '.' or '/'. */
  lemma NameParts(segs: seq<string>, ext: string)
    requires |segs| >= 1 && |segs[0]| > 0 && segs[0][0] != '.'
    requires forall k :: 0 <= k < |segs| ==> '_' !in segs[k] && '/' !in segs[k]
    requires '.' !in ext && '/' !in ext
    ensures Segments(Join(segs, '_') + ['.'] + ext) == segs
    ensures Extension(Join(segs, '_') + ['.'] + ext) == ext
  {
    var stem := Join(segs, '_');
    JoinAvoids(segs, '_', '/');
    assert stem[0] == segs[0][0] by {
      if |segs| > 1 {
        assert stem == segs[0] + ['_'] + Join(segs[1..], '_');
      }
    }
    SplitExtOf(stem, ext);
    SplitJoin(segs, '_');
    assert (['.'] + ext)[1..] == ext;
  }

  /** The date token of a valid date is digits only. */
  lemma DateTokenPlain(d: Date)
    requires ValidDate(d)
    ensures FormatDate(d)[0] != '.' && '_' !in FormatDate(d) && '/' !in FormatDate(d)
  {
    var token := FormatDate(d);
    assert IsDigit(token[0]);
    forall k | 0 <= k < |token| ensures token[k] != '_' && token[k] != '/' {
      assert IsDigit(token[k]);
    }
  }

  /** Decoding the name a receipt is filed under gives the receipt back,
      whatever segments follow the fourth. */
  lemma DecodeReceiptName(rc: Receipt, extra: seq<string>)
    requires Writable(rc)
    requires forall k :: 0 <= k < |extra| ==> '_' !in extra[k] && '/' !in extra[k]
    ensures DecodeName(ReceiptName(rc, extra)) == Ok(rc)
  {
    var segs := [FormatDate(rc.date), rc.currency, rc.paid, SupplierField(rc.supplierEn, rc.supplierLocal)] + extra;
    DateTokenPlain(rc.date);
    forall k | 0 <= k < |segs| ensures '_' !in segs[k] && '/' !in segs[k] {
      if k >= 4 {
        assert segs[k] == extra[k - 4];
      }
    }
    NameParts(segs, rc.format);
    ParseFormat(rc.date);
    SupplierRoundTrip(rc.supplierEn, rc.supplierLocal);
  }

  /** A name whose stem has a valid date and fewer than four segments fails
      with the missing segment, never with a partial receipt. */
  lemma ShortNameFails(date: Date, rest: seq<string>, ext: string)
    requires ValidDate(date) && |rest| < 3
    requires forall k :: 0 <= k < |rest| ==> '_' !in rest[k] && '/' !in rest[k]
    requires '.' !in ext && '/' !in ext
    ensures DecodeName(Join([FormatDate(date)] + rest, '_') + ['.'] + ext) == Err(TooFewSegments)
  {
    var segs := [FormatDate(date)] + rest;
    DateTokenPlain(date);
    forall k | 0 <= k < |segs| ensures '_' !in segs[k] && '/' !in segs[k] {
      if k >= 1 {
        assert segs[k] == rest[k - 1];
      }
    }
    NameParts(segs, ext);
    ParseFormat(date);
  }

  /** Names that share an extension and their first four segments decode
      alike: later segments play no part. */
  lemma FirstFourDecide(name1: string, name2: string)
    requires |Segments(name1)| >= 4 && |Segments(name2)| >= 4
    requires Segments(name1)[..4] == Segments(name2)[..4]
    requires Extension(name1) == Extension(name2)
    ensures DecodeName(name1) == DecodeName(name2)
  {
    assert Segments(name1)[0] == Segments(name1)[..4][0];
    assert Segments(name2)[0] == Segments(name2)[..4][0];
    assert Segments(name1)[1] == Segments(name2)[1] by {
      assert Segments(name1)[1] == Segments(name1)[..4][1];
      assert Segments(name2)[1] == Segments(name2)[..4][1];
    }
    assert Segments(name1)[2] == Segments(name2)[2] by {
      assert Segments(name1)[2] == Segments(name1)[..4][2];
      assert Segments(name2)[2] == Segments(name2)[..4][2];
    }
    assert Segments(name1)[3] == Segments(name2)[3] by {
      assert Segments(name1)[3] == Segments(name1)[..4][3];
      assert Segments(name2)[3] == Segments(name2)[..4][3];
    }
  }

  /** A stem with fewer than three underscores has fewer than four segments,
      so its name never decodes to a receipt. */
  lemma FewUnderscoresFail(name: string)
    requires multiset(Stem(name))['_'] < 3
    ensures DecodeName(name).Err?
  {
    SegmentCount(Stem(name), '_');
  }

  /** The name the example receipt is filed under. */
  lemma AcmeName()
    ensures ReceiptName(Receipt(Date(2018, 1, 5), "USD", "123.45", "Acme", "雅高美", "pdf"), [])
         == "20180105_USD_123.45_Acme(雅高美).pdf"
  {
    assert FormatDate(Date(2018, 1, 5)) == "20180105";
    assert SupplierField("Acme", "雅高美") == "Acme(雅高美)";
    assert [FormatDate(Date(2018, 1, 5)), "USD", "123.45", SupplierField("Acme", "雅高美")] + []
        == ["20180105", "USD", "123.45", "Acme(雅高美)"];
    assert Join(["20180105", "USD", "123.45", "Acme(雅高美)"], '_') == "20180105_USD_123.45_Acme(雅高美)";
  }

  /** The example receipt name decodes field by field. */
  lemma AcmeReceipt(name: string)
    requires name == "20180105_USD_123.45_Acme(雅高美).pdf"
    ensures DecodeName(name) == Ok(Receipt(Date(2018, 1, 5), "USD", "123.45", "Acme", "雅高美", "pdf"))
  {
    AcmeName();
    DecodeReceiptName(Receipt(Date(2018, 1, 5), "USD", "123.45", "Acme", "雅高美", "pdf"), []);
  }

  lemma ShortNames()
    ensures Join([FormatDate(Date(2018, 1, 5))] + ["USD", "12"], '_') + ['.'] + "pdf" == "20180105_USD_12.pdf"
    ensures Join([FormatDate(Date(2018, 1, 5))] + ["USD", "123"], '_') + ['.'] + "45_Acme" == "20180105_USD_123.45_Acme"
  {
    assert FormatDate(Date(2018, 1, 5)) == "20180105";
    assert [FormatDate(Date(2018, 1, 5))] + ["USD", "12"] == ["20180105", "USD", "12"];
    assert [FormatDate(Date(2018, 1, 5))] + ["USD", "123"] == ["20180105", "USD", "123"];
    assert Join(["20180105", "USD", "12"], '_') == "20180105_USD_12";
    assert Join(["20180105", "USD", "123"], '_') == "20180105_USD_123";
  }

  /** Three segments with a numeric amount: the date and the amount are
      read, then segment 3 is missing. */
  lemma ThreeSegmentsFail(name: string)
    requires name == "20180105_USD_12.pdf"
    ensures DecodeName(name) == Err(TooFewSegments)
  {
    ShortNames();
    ShortNameFails(Date(2018, 1, 5), ["USD", "12"], "pdf");
  }

  /** Without an extension the decimal point of the amount is taken for
      the extension's dot, which cuts the name to three segments. */
  lemma NoExtensionAmountFail(name: string)
    requires name == "20180105_USD_123.45_Acme"
    ensures DecodeName(name) == Err(TooFewSegments)
  {
    ShortNames();
    ShortNameFails(Date(2018, 1, 5), ["USD", "123"], "45_Acme");
  }
}
