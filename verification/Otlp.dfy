/** What the OTLP decoders share: resources, scopes and timestamps. */
module Otlp {
  import opened Wrappers
  import opened Widths
  import opened Json
  import opened TextBuffers
  import opened Attributes
  import opened AttributeWriter

  /** A double by its bit pattern, so that infinities and NaN are values like any other. */
  type F64 = bits: nat | bits < 0x1_0000_0000_0000_0000

  const ZERO: F64 := 0

  datatype Scope = Scope(name: string, version: string)

  /** The texts every record of a resource and scope carries. */
  datatype Context = Context(service: string, resource: string, scopeName: string, scopeVersion: string)

  function ResourceAttrs(resource: Option<seq<KeyValue>>): seq<KeyValue> {
    if resource.None? then [] else resource.value
  }

  function ContextOf(resource: Option<seq<KeyValue>>, scope: Option<Scope>): Context {
    Context(ServiceName(ResourceAttrs(resource)), Print(AttributesJson(ResourceAttrs(resource))),
            if scope.None? then "" else scope.value.name, if scope.None? then "" else scope.value.version)
  }

  function TimestampToI64(nanos: nat): Option<int> {
    if nanos <= I64_MAX then Some(nanos) else None
  }

  function Saturated(n: nat): nat {
    if n < USIZE_MAX then n else USIZE_MAX
  }

  /** The texts of a resource, written to the reused buffer. */
  method FormatResource(resource: Option<seq<KeyValue>>, resourceAttrsJson: TextBuffer) returns (serviceName: string)
    modifies resourceAttrsJson
    ensures serviceName == ServiceName(ResourceAttrs(resource))
    ensures resourceAttrsJson.text == Print(AttributesJson(ResourceAttrs(resource)))
  {
    if resource.Some? {
      WriteAttributesJson(resourceAttrsJson, resource.value);
      serviceName := ServiceName(resource.value);
    } else {
      resourceAttrsJson.Clear();
      resourceAttrsJson.PushStr("{}");
      serviceName := "unknown";
    }
  }
}
