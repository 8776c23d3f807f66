/** The sequential model of src/model/sequential.rs: an append-only list of
    boxed layers. `Box<dyn Layer>` becomes a closed sum over the layer
    kinds that implement the `Layer` trait (dense, max pooling, flatten). */
module Sequential {
  import Activation
  import Dense
  import MaxPool2D
  import Flatten

  datatype LayerType = DenseType | MaxPoolType | FlattenType

  datatype Layer =
    | DenseLayer(dense: Dense.Dense)
    | MaxPoolLayer(pool: MaxPool2D.MaxPool2D)
    | FlattenLayer(flatten: Flatten.Flatten)
  {
    /** `Layer::get_layer_type` */
    function LayerType(): LayerType {
      match this
      case DenseLayer(_) => DenseType
      case MaxPoolLayer(_) => MaxPoolType
      case FlattenLayer(_) => FlattenType
    }

    /** `Layer::get_activation_function`: the dense layer reports its own,
        the pooling and flatten layers report `None`. */
    function ActivationFunction(): Activation.ActivationFunctionType {
      match this
      case DenseLayer(d) => d.activationFunction
      case MaxPoolLayer(_) => Activation.None
      case FlattenLayer(_) => Activation.None
    }
  }

  /** Only a dense layer can carry an activation other than `None`. */
  lemma OnlyDenseLayersActivate(layer: Layer)
    ensures layer.ActivationFunction() != Activation.None ==> layer.LayerType() == DenseType
    ensures layer.LayerType() == DenseType ==> layer.ActivationFunction() == layer.dense.activationFunction
  {
  }

  datatype Sequential = Sequential(layers: seq<Layer>)

  /** `Sequential::new(layers_size)`: the size is only a capacity hint. */
  function New(layersSize: nat): (model: Sequential)
    ensures model.layers == []
  {
    Sequential([])
  }

  /** `push_layer`: the new layer goes last, the others keep their places. */
  function PushLayer(model: Sequential, layer: Layer): (pushed: Sequential)
    ensures |pushed.layers| == |model.layers| + 1
    ensures pushed.layers[..|model.layers|] == model.layers
    ensures pushed.layers[|model.layers|] == layer
  {
    Sequential(model.layers + [layer])
  }

  /** A run of `push_layer` calls, in order. */
  function PushAll(model: Sequential, layers: seq<Layer>): Sequential
    decreases |layers|
  {
    if |layers| == 0 then model else PushAll(PushLayer(model, layers[0]), layers[1..])
  }

  /** Pushing a run of layers appends exactly that run: nothing is removed,
      replaced or reordered. */
  lemma {:induction false} PushAllAppends(model: Sequential, layers: seq<Layer>)
    ensures PushAll(model, layers).layers == model.layers + layers
    decreases |layers|
  {
    if |layers| > 0 {
      var next := PushLayer(model, layers[0]);
      PushAllAppends(next, layers[1..]);
      assert next.layers == model.layers + [layers[0]];
      assert [layers[0]] + layers[1..] == layers;
      assert (model.layers + [layers[0]]) + layers[1..] == model.layers + ([layers[0]] + layers[1..]);
    }
  }

  /** A model built from `new` holds the pushed layers in push order, and its
      capacity hint plays no part. */
  lemma BuiltModelHoldsPushedLayers(layersSize: nat, otherSize: nat, layers: seq<Layer>)
    ensures PushAll(New(layersSize), layers).layers == layers
    ensures PushAll(New(layersSize), layers) == PushAll(New(otherSize), layers)
  {
    PushAllAppends(New(layersSize), layers);
    PushAllAppends(New(otherSize), layers);
  }

  /** The layer list only grows: after any pushes the earlier model is a prefix. */
  lemma PushesKeepPrefix(model: Sequential, layers: seq<Layer>)
    ensures |PushAll(model, layers).layers| == |model.layers| + |layers|
    ensures PushAll(model, layers).layers[..|model.layers|] == model.layers
  {
    PushAllAppends(model, layers);
  }
}
