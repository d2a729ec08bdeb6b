/** Client-side uses of the service with the repository's shipped settings
    (no remote store), checked against the contracts alone. */
module Scenarios {
  import opened Wrappers
  import opened Records
  import opened YearSort
  import opened ListOps
  import opened LocalStore
  import opened DbService
  import Config
  import JsNumber
  import Images

  function NoRemoteRead(name: string): Snapshot { ReadFailed }
  function NoRemoteAdd(name: string, data: Record): Option<string> { None }
  function NoRemoteDelete(name: string, id: string): bool { false }

  /** Two leaders added at different milliseconds, one deleted by id: the
      collection then reads as exactly the other one. */
  method DeleteThenRead(first: Record, second: Record, t1: nat, t2: nat, iso: string)
    requires t1 != t2
  {
    var db := new LocalDb(map[], _ => true);
    var service := new Service(db, Config.ShippedFirebaseConfig, true);
    var a := service.Add("leaders", first, t1, iso, NoRemoteAdd);
    var b := service.Add("leaders", second, t2, iso, NoRemoteAdd);
    assert a == Ok(LocalRecord(Stamp(first, t1, iso)));
    assert b == Ok(LocalRecord(Stamp(second, t2, iso)));
    ReadAfterWrite(map[], "leaders", "leaders", [Stamp(first, t1, iso)]);
    assert db.Get("leaders") == [Stamp(second, t2, iso), Stamp(first, t1, iso)];
    var d := service.Delete("leaders", JsNumber.Decimal(t2), NoRemoteDelete);
    assert d == Ok(());
    assert JsNumber.Decimal(t1) != JsNumber.Decimal(t2);
    assert db.Get("leaders") == [Stamp(first, t1, iso)];
    var all := service.GetAll("leaders", NoRemoteRead);
    assert multiset(all) == multiset{Stamp(first, t1, iso)};
  }

  /** Two records added in the same millisecond get the same id, so a delete
      by that id removes both: ids are not unique. */
  method SameMillisecondCollides(first: Record, second: Record, t: nat, iso: string)
  {
    var db := new LocalDb(map[], _ => true);
    var service := new Service(db, Config.ShippedFirebaseConfig, true);
    var a := service.Add("news", first, t, iso, NoRemoteAdd);
    var b := service.Add("news", second, t, iso, NoRemoteAdd);
    assert db.Get("news") == [Stamp(second, t, iso), Stamp(first, t, iso)];
    var d := service.Delete("news", JsNumber.Decimal(t), NoRemoteDelete);
    assert db.Get("news") == [];
  }

  /** With room for one news item only, a second add throws
      `QUOTA_EXCEEDED` and the stored list is still the first item alone;
      other collections were never touched. */
  method QuotaExceededKeepsList(first: Record, second: Record, t1: nat, t2: nat, iso: string)
  {
    var db := new LocalDb(map["gora_leaders" := []], m => |Read(m, "news")| <= 1);
    var service := new Service(db, Config.ShippedFirebaseConfig, true);
    var a := service.Add("news", first, t1, iso, NoRemoteAdd);
    assert a.Ok?;
    var b := service.Add("news", second, t2, iso, NoRemoteAdd);
    assert b == Err(QuotaExceeded);
    assert db.Get("news") == [Stamp(first, t1, iso)];
    assert db.Get("leaders") == [];
  }

  /** Clearing storage empties every collection and keeps other keys. */
  method ClearKeepsForeignKeys(items: seq<Record>)
  {
    var db := new LocalDb(map["gora_news" := items, "theme" := items], _ => true);
    var service := new Service(db, Config.ShippedFirebaseConfig, true);
    service.ClearStorage();
    ClearedReadsEmpty(map["gora_news" := items, "theme" := items], "news");
    assert db.Get("news") == [];
    assert "theme"[0] != Prefix[0];
    assert "theme" in db.store && db.store["theme"] == items;
  }

  /** A 5000x5000 inline photo optimized into an 800x800 box is drawn within
      that box and, with no image host configured, stays inline. */
  method RegattaPhoto(raw: string, encode: (Images.Dims, real) -> string)
  {
    var photo := Images.OptimizeImage(raw, Some(Images.Dims(5000.0, 5000.0)), encode, 800.0, 800.0, 0.6);
    var drawn := Images.Fitted(Images.Dims(5000.0, 5000.0), 800.0, 800.0);
    Images.FittedWithinSquareBox(Images.Dims(5000.0, 5000.0), 800.0);
    assert photo == encode(drawn, 0.6) && drawn.width <= 800.0 && drawn.height <= 800.0;
    var image := Images.UploadToCloudinary(photo, Config.ShippedCloudName, Images.Threw);
    assert image == photo;
  }

  /** Called with only the image, `optimizeImage` draws within the default
      400x400 box at quality 0.5. */
  method DefaultBoxPhoto(raw: string, width: real, height: real, encode: (Images.Dims, real) -> string)
    requires width >= 0.0 && height >= 0.0
  {
    var photo := Images.OptimizeImage(raw, Some(Images.Dims(width, height)), encode);
    var drawn := Images.Fitted(Images.Dims(width, height), 400.0, 400.0);
    Images.FittedWithinSquareBox(Images.Dims(width, height), 400.0);
    assert photo == encode(drawn, 0.5) && drawn.width <= 400.0 && drawn.height <= 400.0;
  }

  /** A news item titled "Regatta" added to an empty store: the collection
      then reads as that one record, with its id and creation time. */
  method RegattaStored(image: string, t: nat, iso: string)
  {
    var data := map["title" := Str("Regatta"), "description" := Str("Results"), "image" := Str(image)];
    var db := new LocalDb(map[], _ => true);
    var service := new Service(db, Config.ShippedFirebaseConfig, true);
    var added := service.Add("news", data, t, iso, NoRemoteAdd);
    var all := service.GetAll("news", NoRemoteRead);
    var rec := Stamp(data, t, iso);
    assert db.Get("news") == [rec];
    assert multiset(all) == multiset{rec};
    assert |all| == |multiset(all)| == 1;
    assert all[0] in multiset(all);
    assert Lookup(all[0], "title") == Str("Regatta");
    assert HasId(all[0], JsNumber.Decimal(t)) && Lookup(all[0], CreatedAtField) == Str(iso);
  }
}
