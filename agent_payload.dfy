/**
 * The request body both agent clients send (the runtime client and the
 * HTTP client build the same dict): `content`, `user_id` and `record_date`
 * always, `request_type` only when it is a non-empty string, `temperature`
 * only when it is not None.
 */
module AgentPayload {
  import opened Wrappers
  import opened Json

  /** Python truth value of an optional string: `None` and `""` are false. */
  predicate Given(s: Option<string>) {
    s.Some? && s.value != ""
  }

  /** `s or ""`. */
  function OrEmpty(s: Option<string>): string {
    if Given(s) then s.value else ""
  }

  /** The payload as a value, for stating what the clients send. */
  function Payload(content: string, userId: string, requestType: Option<string>,
                   temperature: Option<real>, currentDate: Option<string>): map<string, Json>
  {
    var base := map["content" := JStr(content), "user_id" := JStr(userId),
                    "record_date" := JStr(OrEmpty(currentDate))];
    var typed := if Given(requestType) then base["request_type" := JStr(requestType.value)] else base;
    if temperature.Some? then typed["temperature" := JNum(temperature.value)] else typed
  }

  /** The payload built as the clients build it: a dict, then two conditional insertions. */
  method BuildPayload(content: string, userId: string, requestType: Option<string>,
                      temperature: Option<real>, currentDate: Option<string>)
    returns (payload: map<string, Json>)
    ensures payload.Keys == {"content", "user_id", "record_date"}
      + (if Given(requestType) then {"request_type"} else {})
      + (if temperature.Some? then {"temperature"} else {})
    ensures payload["content"] == JStr(content) && payload["user_id"] == JStr(userId)
    ensures payload["record_date"] == JStr(if currentDate.Some? then currentDate.value else "")
    ensures Given(requestType) ==> payload["request_type"] == JStr(requestType.value)
    ensures temperature.Some? ==> payload["temperature"] == JNum(temperature.value)
    ensures payload == Payload(content, userId, requestType, temperature, currentDate)
  {
    payload := map["content" := JStr(content), "user_id" := JStr(userId),
                   "record_date" := JStr(OrEmpty(currentDate))];
    if Given(requestType) {
      payload := payload["request_type" := JStr(requestType.value)];
    }
    if temperature.Some? {
      payload := payload["temperature" := JNum(temperature.value)];
    }
  }
}
