/** How event payloads and query results become typed status data. */
module Payload {
  import opened Text

  /**
    * A JSON value as its readers see it: what each accessor of the JSON library makes of it. Which conversions the
    * library performs is left open, so any combination is possible.
    */
  datatype Json = Json(number: int, text: string, boolean: bool, elements: seq<Json>, fields: Object)

  type Object = map<string, Json>

  const UINT32_MAX: nat := 0xFFFF_FFFF

  type Uint32 = n: nat | n <= UINT32_MAX

  /** `static_cast<uint32_t>` of a 64-bit integer: the lower 32 bits. */
  function Truncate(n: int): Uint32 {
    n % 0x1_0000_0000
  }

  /** The nearest value that fits. */
  function Saturate(n: int): Uint32 {
    if n < 0 then 0 else if n <= UINT32_MAX then n else UINT32_MAX
  }

  function Distance(a: int, b: int): nat {
    if a < b then b - a else a - b
  }

  /** No value that fits is nearer to `n` than `r`. */
  ghost predicate Nearest(r: Uint32, n: int) {
    forall m: Uint32 :: Distance(r, n) <= Distance(m, n)
  }

  /** Saturation gives the nearest value that fits; truncation keeps a value exactly when it fits. */
  lemma NearestValue(n: int)
    ensures Nearest(Saturate(n), n)
    ensures Truncate(n) == n <==> 0 <= n <= 4294967295
    ensures Truncate(n + 4294967296) == Truncate(n)
  {
  }

  /** The first elements, `limit` at most, saturated. */
  function SaturatedPrefix(elements: seq<Json>, limit: nat): (r: seq<Uint32>)
    ensures |r| == Min(limit, |elements|)
    ensures forall i :: 0 <= i < |r| ==> r[i] == Saturate(elements[i].number)
  {
    seq(Min(limit, |elements|), i requires 0 <= i < Min(limit, |elements|) => Saturate(elements[i].number))
  }

  /** Elements beyond the limit are counted but not kept; `exceeded` tells whether that is logged. */
  method ParseUint32Array(value: Json, limit: nat) returns (result: seq<Uint32>, exceeded: bool)
    ensures |result| == Min(limit, |value.elements|)
    ensures forall i :: 0 <= i < |result| ==> result[i] == Saturate(value.elements[i].number)
    ensures result == SaturatedPrefix(value.elements, limit)
    ensures forall i :: 0 <= i < |result| ==> Nearest(result[i], value.elements[i].number)
    ensures exceeded <==> |value.elements| > limit
  {
    result := [];
    var seen := 0;
    while seen < |value.elements|
      invariant 0 <= seen <= |value.elements|
      invariant |result| == Min(limit, seen)
      invariant forall i :: 0 <= i < |result| ==> result[i] == Saturate(value.elements[i].number)
    {
      var current := value.elements[seen];
      seen := seen + 1;
      if |result| >= limit {
        continue;
      }
      var clamped;
      if 0 <= current.number <= UINT32_MAX {
        clamped := current.number;
      } else {
        clamped := if current.number > 0 then UINT32_MAX else 0;
      }
      result := result + [clamped];
    }
    exceeded := seen > limit;
  }

  // ---------------------------------------------------------------- typed data

  datatype WakeupConfig = ALL | NONE | CUSTOM
  datatype PairingState = INITIALISING | IDLE | SEARCHING | PAIRING | COMPLETE | FAILED
  datatype IRProgState = Idle | Waiting | Complete | Failed

  function ToWakeupConfig(s: string): WakeupConfig {
    if s == "all" then ALL else if s == "custom" then CUSTOM else NONE
  }

  function ToPairingState(s: string): PairingState {
    if s == "INITIALIZING" || s == "INITIALISING" then INITIALISING
    else if s == "SEARCHING" then SEARCHING
    else if s == "PAIRING" then PAIRING
    else if s == "COMPLETE" then COMPLETE
    else if s == "FAILED" then FAILED
    else IDLE
  }

  function ToIRProgState(s: string): IRProgState {
    if s == "WAITING" then Waiting
    else if s == "COMPLETE" then Complete
    else if s == "FAILED" then Failed
    else Idle
  }

  datatype PairedRemoteInfo = PairedRemoteInfo(
    macAddress: string, connected: bool, name: string, remoteId: Uint32, deviceId: Uint32, make: string, model: string,
    hwVersion: string, swVersion: string, btlVersion: string, serialNumber: string, batteryPercent: Uint32,
    tvIRCode: string, ampIRCode: string, wakeupKeyCode: Uint32, upgradeSessionId: string,
    wakeupConfig: WakeupConfig, wakeupCustomList: seq<Uint32>)

  datatype NetStatusData = NetStatusData(
    netType: Uint32, pairingState: PairingState, irProgState: IRProgState,
    netTypesSupported: seq<Uint32>, remoteData: seq<PairedRemoteInfo>)

  datatype GetNetStatusResult = GetNetStatusResult(success: bool, status: NetStatusData)

  function TextOf(obj: Object, key: string, default: string): string {
    if key in obj then obj[key].text else default
  }

  function NumberOf(obj: Object, key: string, default: Uint32): Uint32 {
    if key in obj then Truncate(obj[key].number) else default
  }

  function BooleanOf(obj: Object, key: string): bool {
    key in obj && obj[key].boolean
  }

  function ListOf(obj: Object, key: string, limit: nat): seq<Uint32> {
    if key in obj then SaturatedPrefix(obj[key].elements, limit) else []
  }

  function RemoteInfo(obj: Object): PairedRemoteInfo {
    PairedRemoteInfo(
      TextOf(obj, "macAddress", ""), BooleanOf(obj, "connected"), TextOf(obj, "name", ""),
      NumberOf(obj, "remoteId", 0), NumberOf(obj, "deviceId", 0), TextOf(obj, "make", ""), TextOf(obj, "model", ""),
      TextOf(obj, "hwVersion", ""), TextOf(obj, "swVersion", ""), TextOf(obj, "btlVersion", ""),
      TextOf(obj, "serialNumber", ""), NumberOf(obj, "batteryPercent", 0),
      TextOf(obj, "tvIRCode", "0"), TextOf(obj, "ampIRCode", "0"), NumberOf(obj, "wakeupKeyCode", 0),
      TextOf(obj, "upgradeSessionId", ""), ToWakeupConfig(TextOf(obj, "wakeupConfig", "none")),
      ListOf(obj, "wakeupCustomList", 32))
  }

  /** The first elements, `limit` at most, as remotes. */
  function RemotesPrefix(elements: seq<Json>, limit: nat): (r: seq<PairedRemoteInfo>)
    ensures |r| == Min(limit, |elements|)
    ensures forall i :: 0 <= i < |r| ==> r[i] == RemoteInfo(elements[i].fields)
  {
    seq(Min(limit, |elements|), i requires 0 <= i < Min(limit, |elements|) => RemoteInfo(elements[i].fields))
  }

  method ParseRemoteDataArray(value: Json, limit: nat) returns (result: seq<PairedRemoteInfo>, exceeded: bool)
    ensures |result| == Min(limit, |value.elements|)
    ensures forall i :: 0 <= i < |result| ==> result[i] == RemoteInfo(value.elements[i].fields)
    ensures result == RemotesPrefix(value.elements, limit)
    ensures exceeded <==> |value.elements| > limit
  {
    result := [];
    var seen := 0;
    while seen < |value.elements|
      invariant 0 <= seen <= |value.elements|
      invariant |result| == Min(limit, seen)
      invariant forall i :: 0 <= i < |result| ==> result[i] == RemoteInfo(value.elements[i].fields)
    {
      var current := value.elements[seen];
      seen := seen + 1;
      if |result| >= limit {
        continue;
      }
      result := result + [RemoteInfo(current.fields)];
    }
    exceeded := seen > limit;
  }

  function ObjectOf(obj: Object, key: string): Object {
    if key in obj then obj[key].fields else map[]
  }

  /** The status data in `status`; `netType` is what is assumed when it does not say. */
  function StatusData(status: Object, netType: Uint32): NetStatusData {
    NetStatusData(
      NumberOf(status, "netType", netType),
      ToPairingState(TextOf(status, "pairingState", "IDLE")),
      ToIRProgState(TextOf(status, "irProgState", "IDLE")),
      ListOf(status, "netTypesSupported", 8),
      if "remoteData" in status then RemotesPrefix(status["remoteData"].elements, 32) else [])
  }

  /** The event path: what `NotifyStatus` hands to the observers. */
  method EventStatus(params: Object) returns (status: NetStatusData)
    ensures status == StatusData(ObjectOf(params, "status"), NumberOf(params, "netType", 0))
  {
    var statusObj := ObjectOf(params, "status");
    var netType := if "netType" in statusObj then Truncate(statusObj["netType"].number)
                   else if "netType" in params then Truncate(params["netType"].number) else 0;
    status := BuildStatus(statusObj, netType);
  }

  method BuildStatus(statusObj: Object, netType: Uint32) returns (status: NetStatusData)
    ensures status == StatusData(statusObj, netType).(netType := netType)
  {
    var types: seq<Uint32>, remotes: seq<PairedRemoteInfo> := [], [];
    var exceeded;
    if "netTypesSupported" in statusObj {
      types, exceeded := ParseUint32Array(statusObj["netTypesSupported"], 8);
    }
    if "remoteData" in statusObj {
      remotes, exceeded := ParseRemoteDataArray(statusObj["remoteData"], 32);
    }
    status := NetStatusData(netType, ToPairingState(TextOf(statusObj, "pairingState", "IDLE")),
                            ToIRProgState(TextOf(statusObj, "irProgState", "IDLE")), types, remotes);
  }

  /** The query path; `answer` is the result of the bus call, if it succeeds. */
  method GetNetStatus(netType: Uint32, called: bool, answer: Object) returns (result: GetNetStatusResult)
    ensures !called ==> result == GetNetStatusResult(false, StatusData(map[], netType))
    ensures called ==> result.success == BooleanOf(answer, "success")
    ensures called ==> result.status == StatusData(ObjectOf(answer, "status"), netType)
  {
    if !called {
      return GetNetStatusResult(false, NetStatusData(netType, IDLE, Idle, [], []));
    }
    var statusObj := ObjectOf(answer, "status");
    var found := if "netType" in statusObj then Truncate(statusObj["netType"].number) else netType;
    var status := BuildStatus(statusObj, found);
    result := GetNetStatusResult(BooleanOf(answer, "success"), status);
  }

  // ---------------------------------------------------------------- properties

  /** The lengths that the transport can carry are never exceeded, and nothing within them is lost, at either level. */
  lemma LimitsAreKept(status: Object, netType: Uint32)
    ensures var s := StatusData(status, netType);
            && |s.netTypesSupported| == (if "netTypesSupported" in status then Min(8, |status["netTypesSupported"].elements|) else 0)
            && |s.remoteData| == (if "remoteData" in status then Min(32, |status["remoteData"].elements|) else 0)
            && forall i :: 0 <= i < |s.remoteData| ==>
                 var obj := status["remoteData"].elements[i].fields;
                 |s.remoteData[i].wakeupCustomList|
                 == if "wakeupCustomList" in obj then Min(32, |obj["wakeupCustomList"].elements|) else 0
  {
    var s := StatusData(status, netType);
    forall i | 0 <= i < |s.remoteData|
      ensures var obj := status["remoteData"].elements[i].fields;
              |s.remoteData[i].wakeupCustomList|
              == if "wakeupCustomList" in obj then Min(32, |obj["wakeupCustomList"].elements|) else 0
    {
      var obj := status["remoteData"].elements[i].fields;
      assert s.remoteData[i] == RemoteInfo(obj);
    }
  }

  // ---------------------------------------------------------------- the objects that are read

  function TextValue(s: string): Json {
    Json(0, s, false, [], map[])
  }

  function NumberValue(n: int): Json {
    Json(n, "", false, [], map[])
  }

  function BooleanValue(b: bool): Json {
    Json(0, "", b, [], map[])
  }

  function ArrayValue(elements: seq<Json>): Json {
    Json(0, "", false, elements, map[])
  }

  function ObjectValue(fields: Object): Json {
    Json(0, "", false, [], fields)
  }

  function Numbers(ns: seq<Uint32>): (r: Json)
    ensures |r.elements| == |ns| && forall i :: 0 <= i < |ns| ==> r.elements[i] == NumberValue(ns[i])
  {
    ArrayValue(seq(|ns|, i requires 0 <= i < |ns| => NumberValue(ns[i])))
  }

  /** What the control manager sends for each value of the enumerations. */
  function WakeupText(c: WakeupConfig): string {
    match c case ALL => "all" case NONE => "none" case CUSTOM => "custom"
  }

  function PairingText(p: PairingState): string {
    match p
    case INITIALISING => "INITIALISING"
    case IDLE => "IDLE"
    case SEARCHING => "SEARCHING"
    case PAIRING => "PAIRING"
    case COMPLETE => "COMPLETE"
    case FAILED => "FAILED"
  }

  function IRProgText(p: IRProgState): string {
    match p case Idle => "IDLE" case Waiting => "WAITING" case Complete => "COMPLETE" case Failed => "FAILED"
  }

  /** The object of a remote: one label for each field. */
  function RemoteObject(r: PairedRemoteInfo): Object {
    map["macAddress" := TextValue(r.macAddress), "connected" := BooleanValue(r.connected), "name" := TextValue(r.name),
        "remoteId" := NumberValue(r.remoteId), "deviceId" := NumberValue(r.deviceId), "make" := TextValue(r.make),
        "model" := TextValue(r.model), "hwVersion" := TextValue(r.hwVersion), "swVersion" := TextValue(r.swVersion),
        "btlVersion" := TextValue(r.btlVersion), "serialNumber" := TextValue(r.serialNumber),
        "batteryPercent" := NumberValue(r.batteryPercent), "tvIRCode" := TextValue(r.tvIRCode),
        "ampIRCode" := TextValue(r.ampIRCode), "wakeupKeyCode" := NumberValue(r.wakeupKeyCode),
        "upgradeSessionId" := TextValue(r.upgradeSessionId), "wakeupConfig" := TextValue(WakeupText(r.wakeupConfig)),
        "wakeupCustomList" := Numbers(r.wakeupCustomList)]
  }

  predicate Has(obj: Object, key: string, value: Json) {
    key in obj && obj[key] == value
  }

  ghost predicate IdentityOf(obj: Object, r: PairedRemoteInfo) {
    && Has(obj, "macAddress", TextValue(r.macAddress))
    && Has(obj, "connected", BooleanValue(r.connected))
    && Has(obj, "name", TextValue(r.name))
    && Has(obj, "remoteId", NumberValue(r.remoteId))
    && Has(obj, "deviceId", NumberValue(r.deviceId))
  }

  ghost predicate ProductOf(obj: Object, r: PairedRemoteInfo) {
    && Has(obj, "make", TextValue(r.make))
    && Has(obj, "model", TextValue(r.model))
    && Has(obj, "hwVersion", TextValue(r.hwVersion))
    && Has(obj, "swVersion", TextValue(r.swVersion))
    && Has(obj, "btlVersion", TextValue(r.btlVersion))
  }

  ghost predicate CodesOf(obj: Object, r: PairedRemoteInfo) {
    && Has(obj, "serialNumber", TextValue(r.serialNumber))
    && Has(obj, "batteryPercent", NumberValue(r.batteryPercent))
    && Has(obj, "tvIRCode", TextValue(r.tvIRCode))
    && Has(obj, "ampIRCode", TextValue(r.ampIRCode))
  }

  ghost predicate WakeupOf(obj: Object, r: PairedRemoteInfo) {
    && Has(obj, "wakeupKeyCode", NumberValue(r.wakeupKeyCode))
    && Has(obj, "upgradeSessionId", TextValue(r.upgradeSessionId))
    && Has(obj, "wakeupConfig", TextValue(WakeupText(r.wakeupConfig)))
    && Has(obj, "wakeupCustomList", Numbers(r.wakeupCustomList))
  }

  lemma IdentityIsThere(r: PairedRemoteInfo)
    ensures IdentityOf(RemoteObject(r), r)
  {
  }

  lemma ProductIsThere(r: PairedRemoteInfo)
    ensures ProductOf(RemoteObject(r), r)
  {
  }

  lemma CodesIsThere(r: PairedRemoteInfo)
    ensures CodesOf(RemoteObject(r), r)
  {
  }

  lemma WakeupIsThere(r: PairedRemoteInfo)
    ensures WakeupOf(RemoteObject(r), r)
  {
  }

  lemma RemoteIsRead(obj: Object, r: PairedRemoteInfo)
    requires IdentityOf(obj, r) && ProductOf(obj, r) && CodesOf(obj, r) && WakeupOf(obj, r) && |r.wakeupCustomList| <= 32
    ensures RemoteInfo(obj) == r
  {
    assert ListOf(obj, "wakeupCustomList", 32) == r.wakeupCustomList;
  }

  /** Each label reaches its own field: a remote is read back from its object. */
  lemma RemoteRoundTrip(r: PairedRemoteInfo)
    requires |r.wakeupCustomList| <= 32
    ensures RemoteInfo(RemoteObject(r)) == r
  {
    IdentityIsThere(r);
    ProductIsThere(r);
    CodesIsThere(r);
    WakeupIsThere(r);
    RemoteIsRead(RemoteObject(r), r);
  }

  function Remotes(rs: seq<PairedRemoteInfo>): (r: Json)
    ensures |r.elements| == |rs| && forall i :: 0 <= i < |rs| ==> r.elements[i].fields == RemoteObject(rs[i])
  {
    ArrayValue(seq(|rs|, i requires 0 <= i < |rs| => ObjectValue(RemoteObject(rs[i]))))
  }

  /** The object of a status: one label for each field. */
  function StatusObject(s: NetStatusData): Object {
    map["netType" := NumberValue(s.netType), "pairingState" := TextValue(PairingText(s.pairingState)),
        "irProgState" := TextValue(IRProgText(s.irProgState)), "netTypesSupported" := Numbers(s.netTypesSupported),
        "remoteData" := Remotes(s.remoteData)]
  }

  /** What the transport can carry. */
  predicate WithinLimits(s: NetStatusData) {
    && |s.netTypesSupported| <= 8 && |s.remoteData| <= 32
    && forall i :: 0 <= i < |s.remoteData| ==> |s.remoteData[i].wakeupCustomList| <= 32
  }

  ghost predicate RestOfStatus(obj: Object, s: NetStatusData) {
    && Has(obj, "pairingState", TextValue(PairingText(s.pairingState)))
    && Has(obj, "irProgState", TextValue(IRProgText(s.irProgState)))
    && Has(obj, "netTypesSupported", Numbers(s.netTypesSupported))
    && Has(obj, "remoteData", Remotes(s.remoteData))
  }

  lemma StatusIsThere(s: NetStatusData)
    ensures Has(StatusObject(s), "netType", NumberValue(s.netType)) && RestOfStatus(StatusObject(s), s)
    ensures "netType" !in StatusObject(s) - {"netType"} && RestOfStatus(StatusObject(s) - {"netType"}, s)
  {
  }

  lemma RemotesAreRead(rs: seq<PairedRemoteInfo>)
    requires |rs| <= 32 && forall i :: 0 <= i < |rs| ==> |rs[i].wakeupCustomList| <= 32
    ensures RemotesPrefix(Remotes(rs).elements, 32) == rs
  {
    forall i | 0 <= i < |rs| ensures RemotesPrefix(Remotes(rs).elements, 32)[i] == rs[i] {
      RemoteRoundTrip(rs[i]);
    }
  }

  lemma StatusIsRead(obj: Object, s: NetStatusData, netType: Uint32)
    requires RestOfStatus(obj, s) && WithinLimits(s)
    ensures StatusData(obj, netType) == s.(netType := NumberOf(obj, "netType", netType))
  {
    RemotesAreRead(s.remoteData);
    assert ListOf(obj, "netTypesSupported", 8) == s.netTypesSupported;
  }

  /**
    * Both paths give back the very status that was sent, whatever network type is assumed; and when the object does not
    * name the type, all else is given back with the assumed one.
    */
  method StatusRoundTrip(s: NetStatusData, success: bool, netType: Uint32, named: bool)
    returns (event: NetStatusData, result: GetNetStatusResult)
    requires WithinLimits(s)
    ensures named ==> event == s && result == GetNetStatusResult(success, s)
    ensures !named ==> event == s.(netType := netType) && result == GetNetStatusResult(success, s.(netType := netType))
  {
    var status := if named then StatusObject(s) else StatusObject(s) - {"netType"};
    StatusIsThere(s);
    StatusIsRead(status, s, netType);
    var params := map["netType" := NumberValue(netType), "status" := ObjectValue(status)];
    var answer := map["success" := BooleanValue(success), "status" := ObjectValue(status)];
    assert Has(params, "status", ObjectValue(status)) && Has(params, "netType", NumberValue(netType));
    assert Has(answer, "status", ObjectValue(status)) && Has(answer, "success", BooleanValue(success));
    event := EventStatus(params);
    result := GetNetStatus(netType, true, answer);
  }

  // ---------------------------------------------------------------- what is assumed

  /** A label that is missing leaves its field at the default. */
  lemma AbsentLabels(obj: Object)
    ensures var r := RemoteInfo(obj);
            && ("macAddress" !in obj ==> r.macAddress == "") && ("connected" !in obj ==> !r.connected)
            && ("name" !in obj ==> r.name == "") && ("remoteId" !in obj ==> r.remoteId == 0)
            && ("deviceId" !in obj ==> r.deviceId == 0) && ("make" !in obj ==> r.make == "")
            && ("model" !in obj ==> r.model == "") && ("hwVersion" !in obj ==> r.hwVersion == "")
            && ("swVersion" !in obj ==> r.swVersion == "") && ("btlVersion" !in obj ==> r.btlVersion == "")
            && ("serialNumber" !in obj ==> r.serialNumber == "") && ("batteryPercent" !in obj ==> r.batteryPercent == 0)
            && ("tvIRCode" !in obj ==> r.tvIRCode == "0") && ("ampIRCode" !in obj ==> r.ampIRCode == "0")
            && ("wakeupKeyCode" !in obj ==> r.wakeupKeyCode == 0) && ("upgradeSessionId" !in obj ==> r.upgradeSessionId == "")
            && ("wakeupConfig" !in obj ==> r.wakeupConfig == NONE) && ("wakeupCustomList" !in obj ==> r.wakeupCustomList == [])
  {
  }

  /** A number that does not fit its field is reduced modulo 2^32. */
  lemma WideNumbers(obj: Object, netType: Uint32)
    ensures var r := RemoteInfo(obj);
            && ("remoteId" in obj ==> (obj["remoteId"].number - r.remoteId) % 4294967296 == 0)
            && ("deviceId" in obj ==> (obj["deviceId"].number - r.deviceId) % 4294967296 == 0)
            && ("batteryPercent" in obj ==> (obj["batteryPercent"].number - r.batteryPercent) % 4294967296 == 0)
            && ("wakeupKeyCode" in obj ==> (obj["wakeupKeyCode"].number - r.wakeupKeyCode) % 4294967296 == 0)
    ensures "netType" in obj ==> (obj["netType"].number - StatusData(obj, netType).netType) % 4294967296 == 0
  {
  }

  lemma AbsentStatusLabels(obj: Object, netType: Uint32)
    ensures var s := StatusData(obj, netType);
            && ("netType" !in obj ==> s.netType == netType) && ("pairingState" !in obj ==> s.pairingState == IDLE)
            && ("irProgState" !in obj ==> s.irProgState == Idle) && ("netTypesSupported" !in obj ==> s.netTypesSupported == [])
            && ("remoteData" !in obj ==> s.remoteData == [])
  {
  }

  /** A name that the bus never sends leaves an enumeration at its default; "INITIALIZING" is understood as well. */
  lemma UnknownNames(text: string)
    ensures ToWakeupConfig(text) == NONE <==> text != "all" && text != "custom"
    ensures ToPairingState("INITIALIZING") == INITIALISING
    ensures text != "INITIALIZING" && (forall p :: text != PairingText(p)) ==> ToPairingState(text) == IDLE
    ensures (forall p :: text != IRProgText(p)) ==> ToIRProgState(text) == Idle
  {
    if forall p :: text != PairingText(p) {
      assert text != PairingText(INITIALISING) && text != PairingText(SEARCHING) && text != PairingText(PAIRING);
      assert text != PairingText(COMPLETE) && text != PairingText(FAILED);
    }
    if forall p :: text != IRProgText(p) {
      assert text != IRProgText(Waiting) && text != IRProgText(Complete) && text != IRProgText(IRProgState.Failed);
    }
  }

  lemma TypeDecides(status: Object, a: Uint32, b: Uint32)
    ensures StatusData(status, a) == StatusData(status, b) <==> "netType" in status || a == b
  {
  }

  /**
    * An event and the answer to a query that carry the same status object become the same status data exactly when that
    * object names the network type, or what is assumed in its place is the same. A query that
    * fails stands for an empty status object.
    */
  method EventAndQuery(params: Object, netType: Uint32, called: bool, answer: Object)
    returns (event: NetStatusData, result: GetNetStatusResult)
    ensures called && ObjectOf(params, "status") == ObjectOf(answer, "status") ==>
              (event == result.status <==>
               "netType" in ObjectOf(params, "status") || NumberOf(params, "netType", 0) == netType)
    ensures !called && ObjectOf(params, "status") == map[] ==>
              (event == result.status <==> NumberOf(params, "netType", 0) == netType)
    ensures result.success ==> called
  {
    event := EventStatus(params);
    result := GetNetStatus(netType, called, answer);
    TypeDecides(ObjectOf(params, "status"), NumberOf(params, "netType", 0), netType);
  }
}
