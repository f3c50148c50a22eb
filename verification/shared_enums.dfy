/** The session list filters and the session type each type filter stands for. */
module SharedEnums {
  import opened Wrappers
  import DataModels

  datatype SessionFilter =
    | All | Today | ThisWeek | ThisMonth
    | Mindfulness | Breathing | BodyScan | LovingKindness | Focus | Movement | Sleep

  /** The filter's raw string value, its chip label. */
  function RawValue(f: SessionFilter): string {
    match f
    case All => "All"
    case Today => "Today"
    case ThisWeek => "This Week"
    case ThisMonth => "This Month"
    case Mindfulness => "Mindfulness"
    case Breathing => "Breathing"
    case BodyScan => "Body Scan"
    case LovingKindness => "Metta"
    case Focus => "Focus"
    case Movement => "Movement"
    case Sleep => "Sleep"
  }

  /** `allCases`, in declaration order. */
  const AllFilters: seq<SessionFilter> :=
    [All, Today, ThisWeek, ThisMonth, Mindfulness, Breathing, BodyScan, LovingKindness, Focus, Movement, Sleep]

  /** `sessionType`: the type a type filter selects; none for the date filters. */
  function FilterSessionType(f: SessionFilter): (r: Option<DataModels.SessionType>)
    ensures r.None? <==> f in {All, Today, ThisWeek, ThisMonth}
  {
    match f
    case Mindfulness => Some(DataModels.SessionType.Mindfulness)
    case Breathing => Some(DataModels.SessionType.Breathing)
    case BodyScan => Some(DataModels.SessionType.BodyScan)
    case LovingKindness => Some(DataModels.SessionType.LovingKindness)
    case Focus => Some(DataModels.SessionType.Focus)
    case Movement => Some(DataModels.SessionType.Movement)
    case Sleep => Some(DataModels.SessionType.Sleep)
    case _ => None
  }

  /** There are eleven filters, each listed once. */
  lemma FilterCases()
    ensures |AllFilters| == 11
    ensures forall f :: f in AllFilters
    ensures forall i, j :: 0 <= i < j < |AllFilters| ==> AllFilters[i] != AllFilters[j]
  {
    forall f ensures f in AllFilters {
      match f
      case All => assert AllFilters[0] == f;
      case Today => assert AllFilters[1] == f;
      case ThisWeek => assert AllFilters[2] == f;
      case ThisMonth => assert AllFilters[3] == f;
      case Mindfulness => assert AllFilters[4] == f;
      case Breathing => assert AllFilters[5] == f;
      case BodyScan => assert AllFilters[6] == f;
      case LovingKindness => assert AllFilters[7] == f;
      case Focus => assert AllFilters[8] == f;
      case Movement => assert AllFilters[9] == f;
      case Sleep => assert AllFilters[10] == f;
    }
  }

  /**
   * A filter maps to a type exactly when that type is not `custom` and has
   * the filter's raw value; so no filter maps to `custom`.
   */
  lemma FilterTypeByRawValue(f: SessionFilter, t: DataModels.SessionType)
    ensures FilterSessionType(f) == Some(t) <==> t != DataModels.SessionType.Custom && DataModels.RawValue(t) == RawValue(f)
  {
  }
}
