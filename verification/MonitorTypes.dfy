/** Values shared by the detector, the configuration validators and the reload code:
    monitor configurations (pkg/types/config.go), statuses and conditions (pkg/types/types.go). */
module MonitorTypes {

  datatype Option<+T> = None | Some(value: T)

  /** A value of a monitor's free-form config map. `rendered` is what `fmt.Sprint` prints for it;
      values of different kinds can print alike. */
  datatype ConfigValue = ConfigValue(kind: nat, rendered: string)

  /** The dispatch policy of a monitor's remediation block. 0 means "no cap" for
      `maxAttemptsPerIncident` and "no cooldown" for `cooldown`. */
  datatype RemediationPolicy = RemediationPolicy(
    enabled: bool,
    strategies: seq<string>,
    triggerConditions: seq<string>,
    maxAttemptsPerIncident: nat,
    cooldown: nat)

  datatype MonitorConfig = MonitorConfig(
    name: string,
    kind: string,
    enabled: bool,
    interval: int,
    timeout: int,
    config: map<string, ConfigValue>,
    remediation: Option<RemediationPolicy>,
    dependsOn: seq<string>)

  datatype ConditionStatus = ConditionTrue | ConditionFalse | ConditionUnknown

  datatype Condition = Condition(kind: string, status: ConditionStatus)

  datatype Status = Status(source: string, conditions: seq<Condition>)

  ghost predicate UniqueNames(monitors: seq<MonitorConfig>) {
    forall i, j :: 0 <= i < j < |monitors| ==> monitors[i].name != monitors[j].name
  }

  function Names(monitors: seq<MonitorConfig>): (names: set<string>)
  {
    set m | m in monitors :: m.name
  }

  /** Uniquely named lists with the same members are permutations of each other. */
  lemma {:induction false} SameMembersArePermutation(a: seq<MonitorConfig>, b: seq<MonitorConfig>)
    requires UniqueNames(a) && UniqueNames(b)
    requires forall m :: m in a <==> m in b
    ensures multiset(a) == multiset(b)
  {
    forall m ensures multiset(a)[m] == multiset(b)[m] {
      UniqueMembersOccurOnce(a, m);
      UniqueMembersOccurOnce(b, m);
    }
  }

  lemma {:induction false} UniqueMembersOccurOnce(s: seq<MonitorConfig>, m: MonitorConfig)
    requires UniqueNames(s)
    ensures multiset(s)[m] == if m in s then 1 else 0
  {
    if s != [] {
      assert s == [s[0]] + s[1..];
      UniqueMembersOccurOnce(s[1..], m);
    }
  }
}
