/**
 * The wiring of nuclear/main.cpp: the `Vision` reactor's three registrations
 * and the `main` driver that emits one camera and one motor payload and then
 * notifies both types. A payload object is represented by its `data` string.
 */
module Demo {
  import opened Wrappers
  import opened Store
  import opened Reactor

  const CameraData: TypeKey := 0
  const MotorData: TypeKey := 1

  /** The free function `react`. */
  const React: CallbackId := 0
  /** The lambda registered on both CameraData and MotorData. */
  const DoubleTrigger: CallbackId := 1
  /** `Vision::reactInner`, bound to `this`. */
  const ReactInner: CallbackId := 2

  /** The strings set by the default constructors of the two payload classes. */
  const CameraPayload := "Class::CameraData"
  const MotorPayload := "Class::MotorData"

  /** The constructor of `Vision`: `react` and `reactInner` trigger on
      CameraData with MotorData; the lambda triggers on both. Every wrapper
      therefore reads (CameraData, MotorData). */
  method Vision<V>(control: ReactorControl<V>) returns (vision: Reactor<V>)
    ensures fresh(vision) && vision.control == control
    ensures vision.callbacks.Keys == {CameraData, MotorData}
    ensures vision.callbacks[CameraData] == [
      BuildCallback(React, [CameraData] + [MotorData]),
      BuildCallback(DoubleTrigger, [CameraData, MotorData] + []),
      BuildCallback(ReactInner, [CameraData] + [MotorData])]
    ensures vision.callbacks[MotorData] == [BuildCallback(DoubleTrigger, [CameraData, MotorData] + [])]
  {
    assert [CameraData] + [MotorData] == [CameraData, MotorData] == [CameraData, MotorData] + [];
    assert [CameraData][1..] == [] && [CameraData, MotorData][1..] == [MotorData];
    vision := new Reactor(control);
    ghost var w1 := BuildCallback(React, [CameraData] + [MotorData]);
    ghost var w2 := BuildCallback(DoubleTrigger, [CameraData, MotorData] + []);
    ghost var w3 := BuildCallback(ReactInner, [CameraData] + [MotorData]);
    ghost var r0: Registry := map[];
    vision.OnWith([CameraData], [MotorData], React);
    BoundSingle(r0, CameraData, w1);
    ghost var r1 := vision.callbacks;
    assert r1[CameraData] == [w1];
    vision.On([CameraData, MotorData], DoubleTrigger);
    assert Bound(r1, [CameraData, MotorData], w2) == Bound(r1[CameraData := r1[CameraData] + [w2]], [MotorData], w2);
    BoundSingle(r1[CameraData := r1[CameraData] + [w2]], MotorData, w2);
    ghost var r2 := vision.callbacks;
    assert r2[CameraData] == [w1] + [w2];
    vision.OnWith([CameraData], [MotorData], ReactInner);
    BoundSingle(r2, CameraData, w3);
    assert r2[CameraData] == [w1, w2];
    assert [w1, w2] + [w3] == [w1, w2, w3];
  }

  /** `main`: CameraData's notify runs `react`, the lambda and `reactInner` in
      that order; MotorData's runs only the lambda. The lambda thus runs twice,
      each time with its arguments in declaration order (camera, motor). */
  method RunMain() returns (cameraTrace: seq<Call<string>>, motorTrace: seq<Call<string>>)
    ensures cameraTrace == [
      Call(React, [CameraPayload, MotorPayload]),
      Call(DoubleTrigger, [CameraPayload, MotorPayload]),
      Call(ReactInner, [CameraPayload, MotorPayload])]
    ensures motorTrace == [Call(DoubleTrigger, [CameraPayload, MotorPayload])]
  {
    var control := new ReactorControl<string>();
    control.Emit(CameraData, Some(CameraPayload));
    control.Emit(MotorData, Some(MotorPayload));
    var vision := Vision(control);
    assert [CameraData] + [MotorData] == [CameraData, MotorData] == [CameraData, MotorData] + [];
    ghost var data := control.data;
    assert Ready(data, [CameraData, MotorData]);
    ghost var args := Resolve(data, [CameraData, MotorData]);
    assert args == [CameraPayload, MotorPayload];
    cameraTrace := vision.Notify(CameraData);
    motorTrace := vision.Notify(MotorData);
  }

  /** Registration needs no data, and each notify reads the store afresh: a
      with-value emitted between two notifies reaches the second call. */
  method LateEmit() returns (first: seq<Call<string>>, second: seq<Call<string>>)
    ensures first == [Call(React, ["frame1", "m1"])]
    ensures second == [Call(React, ["frame1", "m2"])]
  {
    var control := new ReactorControl<string>();
    var vision := new Reactor(control);
    vision.OnWith([CameraData], [MotorData], React);
    control.Emit(CameraData, Some("frame1"));
    control.Emit(MotorData, Some("m1"));
    assert [CameraData] + [MotorData] == [CameraData, MotorData];
    assert Resolve(control.data, [CameraData, MotorData]) == ["frame1", "m1"];
    first := vision.Notify(CameraData);
    control.Emit(MotorData, Some("m2"));
    assert Resolve(control.data, [CameraData, MotorData]) == ["frame1", "m2"];
    second := vision.Notify(CameraData);
  }
}
