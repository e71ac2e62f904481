/**
 * Start-up checks and the model set-up that follows: the dataset must be KITTI or
 * CITYSCAPE, the mask parameterization 4 or 8, and the net one of the four architectures;
 * each is checked in that order and the first failing check stops the program. The set-up
 * then marks the configuration as training, overrides the learning rate on a warm restart
 * and, for VGG16 only, switches the pretrained model off.
 */
module StartupConfig {
  import opened Common

  datatype Dataset = Kitti | Cityscape
  datatype Net = Vgg16 | Resnet50 | SqueezeDet | SqueezeDetPlus

  function DatasetName(d: Dataset): string
  {
    match d
    case Kitti => "KITTI"
    case Cityscape => "CITYSCAPE"
  }

  function NetName(n: Net): string
  {
    match n
    case Vgg16 => "vgg16"
    case Resnet50 => "resnet50"
    case SqueezeDet => "squeezeDet"
    case SqueezeDetPlus => "squeezeDet+"
  }

  function ParseDataset(s: string): (r: Option<Dataset>)
    ensures r.Some? ==> DatasetName(r.value) == s
    ensures r.None? ==> forall d: Dataset :: DatasetName(d) != s
  {
    if s == "KITTI" then Some(Kitti)
    else if s == "CITYSCAPE" then Some(Cityscape)
    else None
  }

  function ParseNet(s: string): (r: Option<Net>)
    ensures r.Some? ==> NetName(r.value) == s
    ensures r.None? ==> forall n: Net :: NetName(n) != s
  {
    if s == "vgg16" then Some(Vgg16)
    else if s == "resnet50" then Some(Resnet50)
    else if s == "squeezeDet" then Some(SqueezeDet)
    else if s == "squeezeDet+" then Some(SqueezeDetPlus)
    else None
  }

  datatype Config = Config(dataset: Dataset, maskParameterization: int, net: Net)

  datatype ConfigError = UnsupportedDataset | UnsupportedMask | UnsupportedNet

  /** The three assertions of lines 162-172, in program order. */
  function Validate(dataset: string, mask: int, net: string): (r: Result<Config, ConfigError>)
    ensures r == Err(UnsupportedDataset) <==> ParseDataset(dataset).None?
    ensures r == Err(UnsupportedMask) <==> ParseDataset(dataset).Some? && mask != 4 && mask != 8
    ensures r == Err(UnsupportedNet) <==> ParseDataset(dataset).Some? && (mask == 4 || mask == 8) && ParseNet(net).None?
    ensures r.Ok? ==>
      (&& DatasetName(r.value.dataset) == dataset && NetName(r.value.net) == net
       && r.value.maskParameterization == mask && (mask == 4 || mask == 8))
  {
    match ParseDataset(dataset)
    case None => Err(UnsupportedDataset)
    case Some(d) =>
      if mask != 4 && mask != 8 then Err(UnsupportedMask)
      else
        match ParseNet(net)
        case None => Err(UnsupportedNet)
        case Some(n) => Ok(Config(d, mask, n))
  }

  /** The fields of the net's configuration the set-up touches, as the configuration
      constructor returns them. */
  datatype ModelConfig = ModelConfig(isTraining: bool, learningRate: real, loadPretrained: bool, pretrainedPath: string)

  /** Lines 173-217: training mode on; on a warm restart (`warm_restart_lr != -1.0`) the
      learning rate is the warm-restart rate; VGG16 keeps its configured path and does not
      load a pretrained model, every other net takes the path given on the command line. */
  function SetUp(net: Net, defaults: ModelConfig, warmRestartLr: real, pretrainedPathFlag: string): (mc: ModelConfig)
    ensures mc.isTraining
    ensures mc.learningRate == if warmRestartLr != -1.0 then warmRestartLr else defaults.learningRate
    ensures net == Vgg16 ==> !mc.loadPretrained && mc.pretrainedPath == defaults.pretrainedPath
    ensures net != Vgg16 ==> mc.loadPretrained == defaults.loadPretrained && mc.pretrainedPath == pretrainedPathFlag
  {
    var mc := defaults.(isTraining := true);
    var mc := if net == Vgg16 then mc.(loadPretrained := false) else mc.(pretrainedPath := pretrainedPathFlag);
    if warmRestartLr != -1.0 then mc.(learningRate := warmRestartLr) else mc
  }
}

module ConfigTheorems {
  import opened Common
  import opened StartupConfig

  /** Every supported combination is accepted as itself, and only those are accepted. */
  lemma ValidateAcceptsExactly(dataset: string, mask: int, net: string)
    ensures Validate(dataset, mask, net).Ok? <==>
      (exists d: Dataset :: DatasetName(d) == dataset) && (mask == 4 || mask == 8) && (exists n: Net :: NetName(n) == net)
  {
    if ParseDataset(dataset).Some? && ParseNet(net).Some? {
      assert DatasetName(ParseDataset(dataset).value) == dataset;
      assert NetName(ParseNet(net).value) == net;
    }
  }

  lemma ValidateRoundTrip(c: Config)
    requires c.maskParameterization == 4 || c.maskParameterization == 8
    ensures Validate(DatasetName(c.dataset), c.maskParameterization, NetName(c.net)) == Ok(c)
  {
  }

  /** The checks are case-sensitive: the lower-case dataset name is rejected. */
  lemma DatasetNameIsCaseSensitive()
    ensures Validate("kitti", 4, "squeezeDet") == Err(UnsupportedDataset)
  {
    assert "kitti"[0] != "KITTI"[0] && "kitti"[0] != "CITYSCAPE"[0];
  }
}
