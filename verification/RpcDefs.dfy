/**
  The schemas of librpc/include/rpc/rpcdefs.h, with the C types of the fields
  they describe (libcore/include/core/event.h, info.h, action.h and
  libmodule/include/libarmadito/info.h, status.h).
 */
module RpcDefs {
  import opened Wrappers
  import opened JsonRpc
  import opened Marshal

  function Text(name: string): Field {
    Field(name, KString)
  }

  function Integer(name: string, t: IntType): Field {
    Field(name, KInt(t, t))
  }

  function Enumeration(name: string, es: seq<Enumerator>): Field {
    Field(name, KEnum(es))
  }

  // Declared unsigned int in the schema, time_t in the structs.
  const SCAN_ID := Field("scan_id", KInt(UInt32, Int64))

  const FILE_STATUS := [
    Enumerator("A6O_FILE_UNDECIDED", 1), Enumerator("A6O_FILE_CLEAN", 2),
    Enumerator("A6O_FILE_UNKNOWN_TYPE", 3), Enumerator("A6O_FILE_EINVAL", 4),
    Enumerator("A6O_FILE_IERROR", 5), Enumerator("A6O_FILE_SUSPICIOUS", 6),
    Enumerator("A6O_FILE_WHITE_LISTED", 7), Enumerator("A6O_FILE_MALWARE", 8)]

  const UPDATE_STATUS := [
    Enumerator("A6O_UPDATE_OK", 0), Enumerator("A6O_UPDATE_LATE", 1),
    Enumerator("A6O_UPDATE_CRITICAL", 2), Enumerator("A6O_UPDATE_NON_AVAILABLE", 3)]

  const ACTION := [
    Enumerator("A6O_ACTION_NONE", 0), Enumerator("A6O_ACTION_ALERT", 2),
    Enumerator("A6O_ACTION_QUARANTINE", 4), Enumerator("A6O_ACTION_REMOVE", 8)]

  const EVENT_TYPE := [
    Enumerator("EVENT_DETECTION", 1), Enumerator("EVENT_ON_DEMAND_START", 2),
    Enumerator("EVENT_ON_DEMAND_COMPLETED", 4), Enumerator("EVENT_ON_DEMAND_PROGRESS", 8),
    Enumerator("EVENT_QUARANTINE", 16), Enumerator("EVENT_REAL_TIME_PROT", 32),
    Enumerator("EVENT_AV_UPDATE", 64)]

  const DETECTION_CONTEXT := [Enumerator("CONTEXT_REAL_TIME", 0), Enumerator("CONTEXT_ON_DEMAND", 1)]

  const QUARANTINE_ACTION := [Enumerator("QUARANTINE_ENTER", 0), Enumerator("QUARANTINE_EXIT", 1)]

  const BASE_INFO := Struct([
    Text("name"), Integer("base_update_ts", Int64), Text("version"), Integer("signature_count", UInt64), Text("full_path")])

  const MODULE_INFO := Struct([
    Text("name"), Enumeration("mod_status", UPDATE_STATUS), Integer("mod_update_ts", Int64),
    Field("base_infos", KPtrArray(BASE_INFO))])

  const INFO := Struct([
    Text("antivirus_version"), Enumeration("global_status", UPDATE_STATUS), Integer("global_update_ts", Int64),
    Field("module_infos", KPtrArray(MODULE_INFO))])

  const DETECTION_EVENT := Struct([
    Enumeration("context", DETECTION_CONTEXT), SCAN_ID, Text("path"), Enumeration("scan_status", FILE_STATUS),
    Enumeration("scan_action", ACTION), Text("module_name"), Text("module_report")])

  const ON_DEMAND_START_EVENT := Struct([Text("root_path"), SCAN_ID])

  const ON_DEMAND_COMPLETED_EVENT := Struct([
    SCAN_ID, Integer("cancelled", Int32), Integer("total_malware_count", UInt64),
    Integer("total_suspicious_count", UInt64), Integer("total_scanned_count", UInt64), Integer("duration", Int64)])

  const ON_DEMAND_PROGRESS_EVENT := Struct([
    SCAN_ID, Integer("progress", Int32), Text("path"), Integer("malware_count", UInt64),
    Integer("suspicious_count", UInt64), Integer("scanned_count", UInt64)])

  const QUARANTINE_EVENT := Struct([
    Enumeration("quarantine_action", QUARANTINE_ACTION), Text("orig_path"), Text("quarantine_path")])

  const REAL_TIME_PROT_EVENT := Struct([Integer("rt_prot_new_state", Int32)])

  const AV_UPDATE_EVENT := Struct([Integer("foo", Int32)])

  const EVENT_UNION := [
    Case("ev_detection", 1, DETECTION_EVENT),
    Case("ev_on_demand_start", 2, ON_DEMAND_START_EVENT),
    Case("ev_on_demand_completed", 4, ON_DEMAND_COMPLETED_EVENT),
    Case("ev_on_demand_progress", 8, ON_DEMAND_PROGRESS_EVENT),
    Case("ev_quarantine", 16, QUARANTINE_EVENT),
    Case("ev_real_time_prot", 32, REAL_TIME_PROT_EVENT),
    Case("ev_av_update", 64, AV_UPDATE_EVENT)]

  const EVENT := Struct([
    Integer("timestamp", Int64), Enumeration("type", EVENT_TYPE), Field("u", KUnion(EVENT_UNION, "type"))])

  const RPC_SCAN_PARAM := Struct([
    Text("root_path"), Integer("send_progress", Int32), Integer("recursive", Int32), Integer("threaded", Int32),
    Integer("scan_id", Int64)])

  const RPC_LISTEN_PARAM := Struct([
    Integer("detection", Int32), Integer("on_demand", Int32), Integer("on_demand_progress", Int32),
    Integer("quarantine", Int32), Integer("real_time_prot", Int32), Integer("av_update", Int32)])

  lemma FileStatusWellFormed()
    ensures WellFormedKind(KEnum(FILE_STATUS))
  {
  }

  lemma EventTypeWellFormed()
    ensures WellFormedKind(KEnum(EVENT_TYPE))
  {
  }

  lemma SmallEnumsWellFormed()
    ensures WellFormedKind(KEnum(UPDATE_STATUS)) && WellFormedKind(KEnum(ACTION))
    ensures WellFormedKind(KEnum(DETECTION_CONTEXT)) && WellFormedKind(KEnum(QUARANTINE_ACTION))
  {
  }

  lemma InfosWellFormed()
    ensures WellFormed(BASE_INFO) && WellFormed(MODULE_INFO) && WellFormed(INFO)
  {
    SmallEnumsWellFormed();
    assert WellFormed(BASE_INFO);
    assert WellFormed(MODULE_INFO);
  }

  lemma DetectionWellFormed()
    ensures WellFormed(DETECTION_EVENT)
  {
    FileStatusWellFormed();
    SmallEnumsWellFormed();
  }

  lemma OnDemandWellFormed()
    ensures WellFormed(ON_DEMAND_START_EVENT) && WellFormed(ON_DEMAND_COMPLETED_EVENT)
    ensures WellFormed(ON_DEMAND_PROGRESS_EVENT)
  {
  }

  lemma OtherEventsWellFormed()
    ensures WellFormed(QUARANTINE_EVENT) && WellFormed(REAL_TIME_PROT_EVENT) && WellFormed(AV_UPDATE_EVENT)
  {
    SmallEnumsWellFormed();
  }

  /** The event schema is well formed, and each listed event type has its case in the union. */
  lemma EventWellFormed()
    ensures WellFormed(EVENT)
    ensures |EVENT_UNION| == |EVENT_TYPE|
    ensures forall i :: 0 <= i < |EVENT_TYPE| ==> FindCase(EVENT_UNION, EVENT_TYPE[i].value) == i
  {
    EventTypeWellFormed();
    DetectionWellFormed();
    OnDemandWellFormed();
    OtherEventsWellFormed();
    assert WellFormedKind(KUnion(EVENT_UNION, "type"));
    var fs := EVENT.fields;
    assert fs[1].name == "type" && fs[1].kind.KEnum?;
    assert TagBefore(fs, 2);
    forall i | 0 <= i < |EVENT_TYPE| ensures FindCase(EVENT_UNION, EVENT_TYPE[i].value) == i {
      assert EVENT_UNION[i].tag == EVENT_TYPE[i].value;
    }
  }

  lemma ScanParamWellFormed()
    ensures WellFormed(RPC_SCAN_PARAM)
  {
  }

  lemma ListenParamWellFormed()
    ensures WellFormed(RPC_LISTEN_PARAM)
  {
  }

  /** Every schema that crosses the connection is one the round trip applies to. */
  lemma SchemasWellFormed(st: Struct)
    requires st == INFO || st == EVENT || st == RPC_SCAN_PARAM || st == RPC_LISTEN_PARAM
    ensures WellFormed(st)
  {
    InfosWellFormed();
    EventWellFormed();
    ScanParamWellFormed();
    ListenParamWellFormed();
  }

  /** All fields but the identifier of the scan survive. */
  ghost predicate OthersPortable(fs: seq<Field>, v: map<string, Val>)
    requires TypedFields(fs, v)
  {
    forall i :: 0 <= i < |fs| && fs[i] != SCAN_ID ==> PortableKind(fs[i].kind, v[fs[i].name], TagFor(fs[i].kind, v))
  }

  /** In every schema that has it, the identifier of a scan comes back exactly when it fits in 32 bits. */
  lemma ScanIdNarrowed(st: Struct, v: StructVal, i: nat)
    requires WellFormed(st) && TypedStruct(st, v) && i < |st.fields| && st.fields[i] == SCAN_ID
    ensures "scan_id" in v.fields && v.fields["scan_id"].VInt?
    ensures StructReturns(st, v) <==> 0 <= v.fields["scan_id"].i < TWO_32 && OthersPortable(st.fields, v.fields)
  {
    var fs := st.fields;
    StructRoundTrip(st, v);
    assert fs[i].name in v.fields && TypedKind(fs[i].kind, v.fields[fs[i].name], 0);
    assert PortableKind(fs[i].kind, v.fields[fs[i].name], 0) <==> InRange(UInt32, v.fields["scan_id"].i);
  }

  /** The four events of a scan narrow its identifier. */
  lemma ScanIdTruncated(st: Struct, v: StructVal)
    requires st == DETECTION_EVENT || st == ON_DEMAND_START_EVENT || st == ON_DEMAND_COMPLETED_EVENT
             || st == ON_DEMAND_PROGRESS_EVENT
    requires TypedStruct(st, v)
    ensures "scan_id" in v.fields && v.fields["scan_id"].VInt?
    ensures StructReturns(st, v) <==> 0 <= v.fields["scan_id"].i < TWO_32 && OthersPortable(st.fields, v.fields)
  {
    DetectionWellFormed();
    OnDemandWellFormed();
    ScanIdNarrowed(st, v, if st == DETECTION_EVENT || st == ON_DEMAND_START_EVENT then 1 else 0);
  }

}
