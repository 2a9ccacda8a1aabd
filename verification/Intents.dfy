/** Write intents and buffered objects. */
module Intents {

  datatype IntentType = ReadIntent | Overwrite | Append | Delta | Cas

  datatype ConditionType = NoCondition | ValueEquals

  datatype Condition = Condition(kind: ConditionType, expectedValue: string)

  const NO_CONDITION := Condition(NoCondition, "")

  datatype WriteIntent = WriteIntent(objectId: string, intentType: IntentType, payload: string, condition: Condition)

  datatype ObjectType = Generic | Row | Text | CandidateResult

  datatype UndoRecord = UndoRecord(previousValue: string, existed: bool)

  datatype CacheEntry = CacheEntry(
    objectId: string,
    objectType: ObjectType,
    baseValue: string,
    baseVersion: nat,
    currentValue: string,
    dirty: bool,
    intentType: IntentType,
    undo: UndoRecord)
}
